/**
 * The off-turn answer protocol as a transition system: a call's record, the
 * node's timer driver, and every interleaving of fires, answers (late, lost,
 * repeated, of another call), rule turns and re-sends
 * (crates/b2bua-core/src/rule_chain/mod.rs, landing.rs,
 * crates/b2bua/src/router/process.rs, resend.rs, timers.rs).
 */
module Turns {
  import opened Wrappers
  import opened Timers
  import opened CallModel
  import opened OffTurn
  import opened AnswerDeadline
  import opened AnswerLemmas

  // ---- What a turn does -------------------------------------------------

  datatype CallRecord = CallRecord(state: CallState, limiterKey: string, ledger: Ledger, awaited: seq<OffTurnRequest>)

  /** A rule's write to the ledger: arm and schedule, or retire and cancel each. */
  datatype TimerOp = ArmOp(key: TimerKey, fireAt: int) | RetireOp(sel: Selector)

  /** What a turn's writers made of it; `late` are the timers armed after landing (the refresh). */
  datatype Rules = Rules(ops: seq<TimerOp>, state: CallState, effects: seq<OffTurnEffect>, late: seq<TimerOp>, nowMs: int)

  function Apply(a: Armed, op: TimerOp): Armed {
    match op
    case ArmOp(key, fireAt) =>
      var l := Arm(a.ledger, key, fireAt);
      Armed(l, a.commands + [ScheduleTimer(TimerEntry(key, l.generation, fireAt))])
    case RetireOp(sel) => RetireCancelled(a, sel)
  }

  function RetireCancelled(a: Armed, sel: Selector): Armed {
    Armed(Retire(a.ledger, sel), a.commands + Cancels(Taken(a.ledger.entries, sel)))
  }

  function ApplyAll(a: Armed, ops: seq<TimerOp>): Armed {
    if ops == [] then a else Apply(ApplyAll(a, ops[..|ops| - 1]), ops[|ops| - 1])
  }

  /** The rules and the landing of a turn whose screening left `c` and `commands`. */
  function Turn(b: AnswerBudgets, c: CallRecord, commands: seq<DriverCommand>, r: Rules): (CallRecord, seq<DriverCommand>) {
    var ruled := ApplyAll(Armed(c.ledger, commands), r.ops);
    if r.state == Terminated then
      (CallRecord(Terminated, c.limiterKey, Ledger([], ruled.ledger.generation), []), [CancelAllTimers] + ruled.commands)
    else
      var late := ApplyAll(ArmEach(ruled, Deadlines(r.effects, b), r.nowMs), r.late);
      (CallRecord(r.state, c.limiterKey, late.ledger, Recorded(c.awaited, r.effects, r.nowMs)), late.commands)
  }

  // ---- The world --------------------------------------------------------

  /**
   * The call, the driver's live timers of it, the fires under way to it, and
   * the instances whose fire was dropped because their scope had ended.
   */
  datatype World = World(call: CallRecord, driver: Driver, inFlight: set<Instance>, lost: set<Instance>)

  /** How a re-send numbers a request, and whether a later change superseded its admit. */
  datatype Resent = Resent(change: nat, mayHold: bool, superseded: bool)

  /**
   * A delivered event finds its scope ended or not; `rules` is the turn when the
   * rules read the event, `frame` what the framework makes of it when they do not
   * (the message cap, the turn's close).
   */
  datatype Step =
    | Expire(key: TimerKey)
    | Deliver(event: CallEvent, scopeEnded: bool, rules: Rules, frame: Rules)
    | Resend(only: set<OffTurnRequest>, numbering: map<OffTurnRequest, Resent>, late: seq<TimerOp>, nowMs: int)

  function Landed(b: AnswerBudgets, w: World, c: CallRecord, commands: seq<DriverCommand>, r: Rules): World {
    var t := Turn(b, c, commands, r);
    w.(call := t.0, driver := RunAll(w.driver, t.1))
  }

  /** The call once `event` passed the screens. */
  function Read(c: CallRecord, event: CallEvent): CallRecord {
    var l := if event.Timer? then Retire(c.ledger, Keyed(event.key)) else c.ledger;
    c.(ledger := LedgerAfter(c.limiterKey, l, event), awaited := AwaitedAfter(c.limiterKey, c.awaited, event))
  }

  function Next(b: AnswerBudgets, w: World, s: Step): World {
    match s
    case Expire(key) =>
      if Identity(key) !in w.driver then w
      else w.(driver := w.driver - {Identity(key)}, inFlight := w.inFlight + {(Identity(key), w.driver[Identity(key)])})
    case Deliver(event, scopeEnded, rules, frame) =>
      if w.call.state == Terminated then w
      else
        var screened := TimerScreened(w, event, scopeEnded);
        if Reaches(w.call, event, scopeEnded)
        then Landed(b, screened, Read(w.call, event), LastCancelled(Closed(w.call.limiterKey, w.call.ledger, event)),
                    Working(w.call, event, rules, frame))
        else screened
    case Resend(only, numbering, late, nowMs) =>
      var again := Again(w.call.awaited, only);
      if w.call.state != Active || again == [] then w
      else
        var retired := RetireAnswers(Armed(w.call.ledger, []), again);
        var c := w.call.(ledger := retired.ledger, awaited := NotAgain(w.call.awaited, only));
        Landed(b, w, c, retired.commands, Rules([], Active, SentAgain(w.call.limiterKey, again, numbering), late, nowMs))
  }

  /** The rules read every event but an answer no deadline awaits. */
  function Working(c: CallRecord, event: CallEvent, rules: Rules, frame: Rules): Rules {
    if Verdict(c.limiterKey, c.ledger, event) == Unawaited then frame else rules
  }

  /** Every event but a stale fire reaches the turn. */
  predicate Reaches(c: CallRecord, event: CallEvent, scopeEnded: bool) {
    event.Timer? ==> Delivering(c.ledger, scopeEnded, event.key, event.generation) == Delivered
  }

  function TimerScreened(w: World, event: CallEvent, scopeEnded: bool): World {
    if !event.Timer? then w
    else
      var i := (Identity(event.key), event.generation);
      var dropped := Delivering(w.call.ledger, scopeEnded, event.key, event.generation) == ScopeEnded;
      w.(inFlight := w.inFlight - {i}, lost := if dropped then w.lost + {i} else w.lost)
  }

  function Again(rs: seq<OffTurnRequest>, only: set<OffTurnRequest>): seq<OffTurnRequest> {
    if rs == [] then [] else (if rs[0] in only then [rs[0]] else []) + Again(rs[1..], only)
  }

  function NotAgain(rs: seq<OffTurnRequest>, only: set<OffTurnRequest>): seq<OffTurnRequest> {
    if rs == [] then [] else (if rs[0] in only then [] else [rs[0]]) + NotAgain(rs[1..], only)
  }

  function RetireAnswers(a: Armed, rs: seq<OffTurnRequest>): Armed {
    if rs == [] then a
    else RetireCancelled(RetireAnswers(a, rs[..|rs| - 1]), Closing(DeadlineKey(rs[|rs| - 1]).timerType))
  }

  function SentAgain(limiterKey: string, rs: seq<OffTurnRequest>, numbering: map<OffTurnRequest, Resent>): (fxs: seq<OffTurnEffect>)
    ensures |fxs| == |rs|
    ensures forall i :: 0 <= i < |rs| ==> fxs[i] == EffectAgain(limiterKey, rs[i], Number(numbering, rs[i]))
  {
    seq(|rs|, i requires 0 <= i < |rs| => EffectAgain(limiterKey, rs[i], Number(numbering, rs[i])))
  }

  function Number(numbering: map<OffTurnRequest, Resent>, r: OffTurnRequest): Resent {
    if r in numbering then numbering[r] else Resent(0, false, false)
  }

  function EffectAgain(limiterKey: string, r: OffTurnRequest, n: Resent): OffTurnEffect {
    match r
    case Refer(request, _) => ReferAsyncHttp(request)
    case ServiceHttp(id, image, timeoutMs) => ServiceHttpRequest(id, image, timeoutMs)
    case Failure(request, _) => FailureAsyncHttp(request, ConsultAdmits(n.change, n.mayHold), None)
    case Release(request, _) => ReleaseAsyncHttp(request, ConsultAdmits(n.change, n.mayHold), None)
    case Admit(id, entries, change) =>
      if n.superseded
      then Reenter(Internal(LimiterAdmitResult, "superseded",
                            Payload(Some(id), None, Some(AdmitReport(limiterKey, change, "superseded")), None, None)))
      else LimiterAdmit(id, entries, n.change)
  }

  /** The world after a whole run. */
  function Exec(b: AnswerBudgets, w: World, run: seq<Step>): World {
    if run == [] then w else Next(b, Exec(b, w, run[..|run| - 1]), run[|run| - 1])
  }

  // ---- What the rules may do --------------------------------------------

  /** A rule leaves the answer deadlines alone. */
  ghost predicate LeavesAnswers(op: TimerOp) {
    match op
    case ArmOp(key, _) => !IsAnswerDeadline(key.timerType)
    case RetireOp(Keyed(key)) => !IsAnswerDeadline(key.timerType)
    case RetireOp(Among(keys)) => forall k :: k in keys ==> !IsAnswerDeadline(k.timerType)
    case RetireOp(OfAttempt(_)) => true
    case RetireOp(Closing(_)) => false
  }

  ghost predicate AllLeaveAnswers(ops: seq<TimerOp>) {
    forall i :: 0 <= i < |ops| ==> LeavesAnswers(ops[i])
  }

  /**
   * A scope that can end while the call lives: an attempt's or a leg's, or the
   * owning machine's of a service timer. Answer deadlines have none.
   */
  predicate MayEnd(key: TimerKey) {
    key.scope.AttemptScope? || key.scope.LegScope? || key.timerType.Service?
  }

  ghost predicate Admissible(s: Step) {
    match s
    case Expire(_) => true
    case Deliver(event, scopeEnded, rules, frame) =>
      && AllLeaveAnswers(rules.ops) && AllLeaveAnswers(rules.late)
      && AllLeaveAnswers(frame.ops) && AllLeaveAnswers(frame.late)
      && (event.Timer? && scopeEnded ==> MayEnd(event.key))
    case Resend(_, _, late, _) => AllLeaveAnswers(late)
  }

  ghost predicate AllAdmissible(run: seq<Step>) {
    forall i :: 0 <= i < |run| ==> Admissible(run[i])
  }

  // ---- The invariant ----------------------------------------------------

  /** Answer deadlines guard the call itself. */
  ghost predicate AnswersOnCall(l: Ledger) {
    forall e :: e in l.entries && IsAnswerDeadline(e.key.timerType) ==> e.key.scope == CallScope
  }

  ghost predicate InDriver(d: Driver, e: TimerEntry) {
    Identity(e.key) in d && d[Identity(e.key)] == e.generation
  }

  /**
   * Every ledger entry is in the driver under its generation, or excused; and
   * the driver holds no generation the ledger has not handed out.
   */
  ghost predicate Follows(l: Ledger, d: Driver, excused: set<Instance>) {
    && (forall e :: e in l.entries ==> InDriver(d, e) || InstanceOf(e) in excused)
    && Issued(d, l.generation)
  }

  ghost predicate Issued(d: Driver, generation: nat) {
    forall k :: k in d ==> d[k] <= generation
  }

  ghost predicate Invariant(b: AnswerBudgets, w: World) {
    && Valid(w.call.ledger)
    && AnswersOnCall(w.call.ledger)
    && Covered(w.call.ledger, w.call.awaited, b)
    && Distinct(w.call.awaited)
    && Follows(w.call.ledger, w.driver, w.inFlight + w.lost)
    && (forall i :: i in w.inFlight ==> i.1 <= w.call.ledger.generation)
    && (forall i :: i in w.lost ==> !IsAnswerDeadline(i.0.timerType) || i.0.scope != CallScope)
  }

  /** A call just created: nothing armed, nothing awaited. */
  predicate Initial(w: World) {
    && w.call.state == Active && w.call.ledger.entries == [] && w.call.awaited == []
    && w.driver == map[] && w.inFlight == {} && w.lost == {}
  }

  /** Nothing enters a ledger but under a generation it has not handed out. */
  ghost predicate Grows(l: Ledger, l': Ledger) {
    && l.generation <= l'.generation
    && forall e :: e in l'.entries ==> e in l.entries || l.generation < e.generation
  }

  // ---- Each write keeps it ----------------------------------------------

  lemma {:induction false} ArmFollows(a: Armed, key: TimerKey, fireAt: int, d: Driver, excused: set<Instance>)
    requires Follows(a.ledger, RunAll(d, a.commands), excused)
    ensures
      var armed := Apply(a, ArmOp(key, fireAt));
      && Grows(a.ledger, armed.ledger)
      && Follows(armed.ledger, RunAll(d, armed.commands), excused)
  {
    var entry := TimerEntry(key, a.ledger.generation + 1, fireAt);
    RunAllPush(d, a.commands, ScheduleTimer(entry));
    ArmScheduledFollows(a.ledger, key, fireAt, RunAll(d, a.commands), excused);
  }

  lemma {:induction false} ArmScheduledFollows(l: Ledger, key: TimerKey, fireAt: int, d: Driver, excused: set<Instance>)
    requires Follows(l, d, excused)
    ensures
      var armed := Arm(l, key, fireAt);
      && Grows(l, armed)
      && Follows(armed, d[Identity(key) := armed.generation], excused)
  {
    var kept := Kept(l.entries, Keyed(key));
    Partition(l.entries, Keyed(key));
    assert forall e :: e in kept ==> e in l.entries && Identity(e.key) != Identity(key);
  }

  /** Two entries of one key are selected together. */
  lemma SelectedTogether(sel: Selector, e: TimerEntry, f: TimerEntry)
    requires SameKey(e.key, f.key)
    ensures Selects(sel, e) <==> Selects(sel, f)
  {
  }

  lemma {:induction false} RetireFollows(a: Armed, sel: Selector, d: Driver, excused: set<Instance>)
    requires Follows(a.ledger, RunAll(d, a.commands), excused)
    ensures
      var retired := RetireCancelled(a, sel);
      && Grows(a.ledger, retired.ledger)
      && Follows(retired.ledger, RunAll(d, retired.commands), excused)
  {
    var gone := Taken(a.ledger.entries, sel);
    RunAllAppend(d, a.commands, Cancels(gone));
    CancelsOnlyRemove(RunAll(d, a.commands), gone);
    Partition(a.ledger.entries, sel);
    forall e | e in Kept(a.ledger.entries, sel)
      ensures InDriver(RunAll(RunAll(d, a.commands), Cancels(gone)), e) || InstanceOf(e) in excused
    {
      forall g | g in gone ensures !SameKey(g.key, e.key) {
        if SameKey(g.key, e.key) { SelectedTogether(sel, g, e); }
      }
      RunCancels(RunAll(d, a.commands), gone, e.key);
    }
  }

  lemma {:induction false} OpsFollow(a: Armed, ops: seq<TimerOp>, d: Driver, excused: set<Instance>)
    requires Valid(a.ledger) && Follows(a.ledger, RunAll(d, a.commands), excused)
    ensures
      var r := ApplyAll(a, ops);
      Valid(r.ledger) && Grows(a.ledger, r.ledger) && Follows(r.ledger, RunAll(d, r.commands), excused)
  {
    if ops != [] {
      var front, op := ops[..|ops| - 1], ops[|ops| - 1];
      OpsFollow(a, front, d, excused);
      var before := ApplyAll(a, front);
      match op
      case ArmOp(key, fireAt) =>
        ArmValid(before.ledger, key, fireAt);
        ArmFollows(before, key, fireAt, d, excused);
      case RetireOp(sel) =>
        RetireValid(before.ledger, sel);
        RetireFollows(before, sel, d, excused);
    }
  }

  /** Rules that leave answer deadlines alone leave exactly those it holds. */
  lemma {:induction false} OpsKeepAnswers(a: Armed, ops: seq<TimerOp>)
    requires AnswersOnCall(a.ledger) && AllLeaveAnswers(ops)
    ensures AnswersOnCall(ApplyAll(a, ops).ledger)
    ensures forall e: TimerEntry :: IsAnswerDeadline(e.key.timerType) ==>
      (e in a.ledger.entries <==> e in ApplyAll(a, ops).ledger.entries)
  {
    if ops != [] {
      var front, op := ops[..|ops| - 1], ops[|ops| - 1];
      assert AllLeaveAnswers(front) by {
        assert forall i :: 0 <= i < |front| ==> front[i] == ops[i];
      }
      OpsKeepAnswers(a, front);
      var before := ApplyAll(a, front).ledger;
      match op
      case ArmOp(key, fireAt) => Partition(before.entries, Keyed(key));
      case RetireOp(sel) => Partition(before.entries, sel);
    }
  }

  /** No request of `rs` awaits its answer by the deadline `e`. */
  ghost predicate Spared(e: TimerEntry, rs: seq<OffTurnRequest>) {
    forall q :: q in rs ==> !Closes(e.key.timerType, DeadlineKey(q).timerType)
  }

  lemma {:induction false} RetireAnswersFollows(a: Armed, rs: seq<OffTurnRequest>, d: Driver, excused: set<Instance>)
    requires Valid(a.ledger) && Follows(a.ledger, RunAll(d, a.commands), excused)
    ensures
      var r := RetireAnswers(a, rs);
      Valid(r.ledger) && Grows(a.ledger, r.ledger) && Follows(r.ledger, RunAll(d, r.commands), excused)
  {
    if rs != [] {
      var front, last := rs[..|rs| - 1], rs[|rs| - 1];
      RetireAnswersFollows(a, front, d, excused);
      var before := RetireAnswers(a, front);
      var sel := Closing(DeadlineKey(last).timerType);
      RetireValid(before.ledger, sel);
      RetireFollows(before, sel, d, excused);
    }
  }

  /** Retiring the deadlines of `rs` leaves exactly the entries that are none of theirs. */
  lemma {:induction false} RetireAnswersLeaves(a: Armed, rs: seq<OffTurnRequest>)
    ensures forall e :: e in RetireAnswers(a, rs).ledger.entries <==> e in a.ledger.entries && Spared(e, rs)
  {
    forall e ensures e in RetireAnswers(a, rs).ledger.entries <==> e in a.ledger.entries && Spared(e, rs) {
      RetireAnswersLeave(a, rs, e);
    }
  }

  lemma {:induction false} RetireAnswersLeave(a: Armed, rs: seq<OffTurnRequest>, e: TimerEntry)
    ensures e in RetireAnswers(a, rs).ledger.entries <==> e in a.ledger.entries && Spared(e, rs)
  {
    if rs != [] {
      var front, last := rs[..|rs| - 1], rs[|rs| - 1];
      assert rs == front + [last];
      RetireAnswersLeave(a, front, e);
      Partition(RetireAnswers(a, front).ledger.entries, Closing(DeadlineKey(last).timerType));
    }
  }

  lemma {:induction false} ArmEachFollows(a: Armed, ds: seq<(TimerType, nat)>, nowMs: int, d: Driver, excused: set<Instance>)
    requires Valid(a.ledger) && AnswersOnCall(a.ledger) && Follows(a.ledger, RunAll(d, a.commands), excused)
    ensures
      var r := ArmEach(a, ds, nowMs);
      && Valid(r.ledger) && Grows(a.ledger, r.ledger) && AnswersOnCall(r.ledger)
      && Follows(r.ledger, RunAll(d, r.commands), excused)
  {
    if ds != [] {
      var front, x := ds[..|ds| - 1], ds[|ds| - 1];
      ArmEachFollows(a, front, nowMs, d, excused);
      var before := ArmEach(a, front, nowMs);
      ArmValid(before.ledger, CallKey(x.0), FireAt(nowMs, x.1));
      ArmFollows(before, CallKey(x.0), FireAt(nowMs, x.1), d, excused);
      Partition(before.ledger.entries, Keyed(CallKey(x.0)));
    }
  }

  lemma CoveredSame(l: Ledger, l': Ledger, rs: seq<OffTurnRequest>, b: AnswerBudgets)
    requires Covered(l, rs, b)
    requires forall e: TimerEntry :: IsAnswerDeadline(e.key.timerType) && e in l.entries ==> e in l'.entries
    ensures Covered(l', rs, b)
  {
  }

  /** A driver emptied before a turn's commands holds nothing they would not leave in any. */
  lemma {:induction false} EmptiedIsIssued(d: Driver, commands: seq<DriverCommand>, generation: nat)
    requires Issued(RunAll(d, commands), generation)
    ensures Issued(RunAll(d, [CancelAllTimers] + commands), generation)
  {
    RunAllAppend(d, [CancelAllTimers], commands);
    assert [CancelAllTimers][..0] == [];
    RunFromEmpty(d, commands);
  }

  /** The rules and the landing of a turn keep what the screening left. */
  lemma {:induction false} TurnKeeps(b: AnswerBudgets, c: CallRecord, commands: seq<DriverCommand>, r: Rules, d: Driver, excused: set<Instance>)
    requires Valid(c.ledger) && AnswersOnCall(c.ledger) && Covered(c.ledger, c.awaited, b) && Distinct(c.awaited)
    requires Follows(c.ledger, RunAll(d, commands), excused)
    requires AllLeaveAnswers(r.ops) && AllLeaveAnswers(r.late)
    ensures
      var t := Turn(b, c, commands, r);
      && Grows(c.ledger, t.0.ledger)
      && Valid(t.0.ledger) && AnswersOnCall(t.0.ledger) && Covered(t.0.ledger, t.0.awaited, b) && Distinct(t.0.awaited)
      && Follows(t.0.ledger, RunAll(d, t.1), excused)
  {
    var a := Armed(c.ledger, commands);
    var ruled := ApplyAll(a, r.ops);
    OpsFollow(a, r.ops, d, excused);
    OpsKeepAnswers(a, r.ops);
    if r.state != Terminated {
      CoveredSame(c.ledger, ruled.ledger, c.awaited, b);
      var armed := ArmEach(ruled, Deadlines(r.effects, b), r.nowMs);
      ArmEachFollows(ruled, Deadlines(r.effects, b), r.nowMs, d, excused);
      LandingCovers(ruled, c.awaited, r.effects, b, r.nowMs);
      RecordedDistinct(c.awaited, r.effects, r.nowMs);
      OpsFollow(armed, r.late, d, excused);
      OpsKeepAnswers(armed, r.late);
      CoveredSame(armed.ledger, ApplyAll(armed, r.late).ledger, Recorded(c.awaited, r.effects, r.nowMs), b);
    } else {
      EmptiedIsIssued(d, ruled.commands, ruled.ledger.generation);
    }
  }

  /** Screening an answer that closes several deadlines cancels one, and the driver still follows. */
  lemma {:induction false} CloseFollows(limiterKey: string, l: Ledger, event: CallEvent, d: Driver, excused: set<Instance>)
    requires Follows(l, d, excused) && !event.Timer?
    ensures Grows(l, LedgerAfter(limiterKey, l, event))
    ensures Follows(LedgerAfter(limiterKey, l, event), RunAll(d, LastCancelled(Closed(limiterKey, l, event))), excused)
  {
    var closed := Closed(limiterKey, l, event);
    if closed != [] {
      var sel := Closing(AnswerTo(event).value);
      var last := closed[|closed| - 1];
      Partition(l.entries, sel);
      assert last in closed;
      assert LastCancelled(closed)[..0] == [];
      forall e | e in Kept(l.entries, sel)
        ensures InDriver(RunAll(d, LastCancelled(closed)), e) || InstanceOf(e) in excused
      {
        if SameKey(e.key, last.key) { SelectedTogether(sel, e, last); }
      }
    } else {
      assert LedgerAfter(limiterKey, l, event) == l;
    }
  }

  /** A fire leaves the screens with its entry gone, and no other. */
  lemma {:induction false} FireFollows(w: World, event: CallEvent, scopeEnded: bool)
    requires Valid(w.call.ledger) && Follows(w.call.ledger, w.driver, w.inFlight + w.lost) && event.Timer?
    ensures
      var s := TimerScreened(w, event, scopeEnded);
      var l := if Reaches(w.call, event, scopeEnded) then Read(w.call, event).ledger else w.call.ledger;
      Follows(l, w.driver, s.inFlight + s.lost)
  {
    var l := w.call.ledger;
    var s := TimerScreened(w, event, scopeEnded);
    Partition(l.entries, Keyed(event.key));
    var held := Taken(l.entries, Keyed(event.key));
    var i := (Identity(event.key), event.generation);
    forall e | e in l.entries && InstanceOf(e) == i
      ensures !Reaches(w.call, event, scopeEnded) ==> i in s.lost
    {
      assert e in held && held[0] in held;
      SameEntry(l, e, held[0]);
    }
  }

  /** Retiring the key a fire names keeps the ledger's form. */
  lemma {:induction false} FireKeeps(b: AnswerBudgets, w: World, event: CallEvent)
    requires Invariant(b, w) && event.Timer?
    ensures
      var c := Read(w.call, event);
      Valid(c.ledger) && AnswersOnCall(c.ledger) && Covered(c.ledger, c.awaited, b) && Distinct(c.awaited)
      && Grows(w.call.ledger, c.ledger)
  {
    RetireValid(w.call.ledger, Keyed(event.key));
    Partition(w.call.ledger.entries, Keyed(event.key));
    ExpiryCovers(w.call.ledger, w.call.awaited, event.key, event.generation, b);
    UnsettledDistinct(w.call.awaited, event);
  }

  lemma {:induction false} AnswerKeeps(b: AnswerBudgets, w: World, event: CallEvent)
    requires Invariant(b, w) && !event.Timer?
    ensures
      var c := Read(w.call, event);
      Valid(c.ledger) && AnswersOnCall(c.ledger) && Covered(c.ledger, c.awaited, b) && Distinct(c.awaited)
  {
    ScreeningCovers(w.call.limiterKey, w.call.ledger, w.call.awaited, event, b);
    UnsettledDistinct(w.call.awaited, event);
    if AnswerTo(event).Some? {
      RetireValid(w.call.ledger, Closing(AnswerTo(event).value));
      Partition(w.call.ledger.entries, Closing(AnswerTo(event).value));
    }
  }

  lemma {:induction false} FireDelivers(b: AnswerBudgets, w: World, s: Step)
    requires Invariant(b, w) && Admissible(s) && s.Deliver? && s.event.Timer? && w.call.state != Terminated
    ensures Invariant(b, Next(b, w, s)) && Grows(w.call.ledger, Next(b, w, s).call.ledger)
  {
    var screened := TimerScreened(w, s.event, s.scopeEnded);
    FireFollows(w, s.event, s.scopeEnded);
    if Reaches(w.call, s.event, s.scopeEnded) {
      FireKeeps(b, w, s.event);
      TurnKeeps(b, Read(w.call, s.event), [], Working(w.call, s.event, s.rules, s.frame), w.driver, screened.inFlight + screened.lost);
    }
  }

  lemma {:induction false} AnswerDelivers(b: AnswerBudgets, w: World, s: Step)
    requires Invariant(b, w) && Admissible(s) && s.Deliver? && !s.event.Timer? && w.call.state != Terminated
    ensures Invariant(b, Next(b, w, s)) && Grows(w.call.ledger, Next(b, w, s).call.ledger)
  {
    AnswerKeeps(b, w, s.event);
    CloseFollows(w.call.limiterKey, w.call.ledger, s.event, w.driver, w.inFlight + w.lost);
    TurnKeeps(b, Read(w.call, s.event), LastCancelled(Closed(w.call.limiterKey, w.call.ledger, s.event)),
              Working(w.call, s.event, s.rules, s.frame), w.driver, w.inFlight + w.lost);
  }

  lemma {:induction false} DeliverKeeps(b: AnswerBudgets, w: World, s: Step)
    requires Invariant(b, w) && Admissible(s) && s.Deliver?
    ensures Invariant(b, Next(b, w, s)) && Grows(w.call.ledger, Next(b, w, s).call.ledger)
  {
    if w.call.state != Terminated {
      if s.event.Timer? { FireDelivers(b, w, s); } else { AnswerDelivers(b, w, s); }
    }
  }

  // ---- Re-sends ---------------------------------------------------------

  lemma {:induction false} AgainSplits(rs: seq<OffTurnRequest>, only: set<OffTurnRequest>)
    ensures forall r :: r in Again(rs, only) <==> r in rs && r in only
    ensures forall r :: r in NotAgain(rs, only) <==> r in rs && r !in only
  {
    if rs != [] {
      AgainSplits(rs[1..], only);
      assert rs == [rs[0]] + rs[1..];
    }
  }

  lemma {:induction false} NotAgainDistinct(rs: seq<OffTurnRequest>, only: set<OffTurnRequest>)
    requires Distinct(rs)
    ensures Distinct(NotAgain(rs, only))
  {
    if rs != [] {
      var rest := rs[1..];
      assert forall i :: 0 <= i < |rest| ==> rest[i] == rs[i + 1];
      NotAgainDistinct(rest, only);
      AgainSplits(rest, only);
      var kept := NotAgain(rest, only);
      forall i | 0 <= i < |kept| ensures !SameRequest(rs[0], kept[i]) {
        assert kept[i] in rest;
      }
    }
  }

  /** Distinct requests on one record have deadlines that close apart. */
  lemma DistinctCloseApart(rs: seq<OffTurnRequest>, q: OffTurnRequest, r: OffTurnRequest)
    requires Distinct(rs) && q in rs && r in rs && q != r
    ensures !Closes(DeadlineKey(r).timerType, DeadlineKey(q).timerType)
  {
  }

  /** Retiring the deadlines of the requests sent again leaves the others theirs. */
  lemma {:induction false} ResendCovers(l: Ledger, l': Ledger, rs: seq<OffTurnRequest>, only: set<OffTurnRequest>, b: AnswerBudgets)
    requires Covered(l, rs, b) && Distinct(rs)
    requires forall e :: e in l.entries && Spared(e, Again(rs, only)) ==> e in l'.entries
    ensures Covered(l', NotAgain(rs, only), b)
  {
    forall r | r in NotAgain(rs, only) && Bounded(r, b) ensures Holds(l', DeadlineKey(r)) {
      assert r in rs by { AgainSplits(rs, only); }
      var e :| e in l.entries && SameKey(e.key, DeadlineKey(r));
      OthersSpared(rs, only, r, e);
    }
  }

  lemma {:induction false} OthersSpared(rs: seq<OffTurnRequest>, only: set<OffTurnRequest>, r: OffTurnRequest, e: TimerEntry)
    requires Distinct(rs) && r in NotAgain(rs, only) && SameKey(e.key, DeadlineKey(r))
    ensures Spared(e, Again(rs, only))
  {
    AgainSplits(rs, only);
    forall q | q in Again(rs, only) ensures !Closes(e.key.timerType, DeadlineKey(q).timerType) {
      DistinctCloseApart(rs, q, r);
    }
  }

  lemma {:induction false} ResendKeeps(b: AnswerBudgets, w: World, s: Step)
    requires Invariant(b, w) && Admissible(s) && s.Resend?
    ensures Invariant(b, Next(b, w, s)) && Grows(w.call.ledger, Next(b, w, s).call.ledger)
  {
    var again := Again(w.call.awaited, s.only);
    if w.call.state == Active && again != [] {
      var excused := w.inFlight + w.lost;
      var retired := RetireAnswers(Armed(w.call.ledger, []), again);
      RetireAnswersFollows(Armed(w.call.ledger, []), again, w.driver, excused);
      RetireAnswersLeaves(Armed(w.call.ledger, []), again);
      var c := w.call.(ledger := retired.ledger, awaited := NotAgain(w.call.awaited, s.only));
      AgainSplits(w.call.awaited, s.only);
      NotAgainDistinct(w.call.awaited, s.only);
      ResendCovers(w.call.ledger, c.ledger, w.call.awaited, s.only, b);
      TurnKeeps(b, c, retired.commands,
                Rules([], Active, SentAgain(w.call.limiterKey, again, s.numbering), s.late, s.nowMs), w.driver, excused);
    }
  }

  lemma {:induction false} NextKeeps(b: AnswerBudgets, w: World, s: Step)
    requires Invariant(b, w) && Admissible(s)
    ensures Invariant(b, Next(b, w, s)) && Grows(w.call.ledger, Next(b, w, s).call.ledger)
  {
    match s
    case Expire(key) =>
    case Deliver(_, _, _, _) => DeliverKeeps(b, w, s);
    case Resend(_, _, _, _) => ResendKeeps(b, w, s);
  }

  /** What holds of every world a run reaches. */
  lemma {:induction false} ExecKeeps(b: AnswerBudgets, w: World, run: seq<Step>)
    requires Invariant(b, w) && AllAdmissible(run)
    ensures Invariant(b, Exec(b, w, run)) && Grows(w.call.ledger, Exec(b, w, run).call.ledger)
  {
    if run != [] {
      var front := run[..|run| - 1];
      assert AllAdmissible(front) by { assert forall i :: 0 <= i < |front| ==> front[i] == run[i]; }
      ExecKeeps(b, w, front);
      NextKeeps(b, Exec(b, w, front), run[|run| - 1]);
    }
  }
}
