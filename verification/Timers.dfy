/**
 * The timer ledger of a call (crates/call/src/model/timer.rs,
 * crates/call/src/helpers/timer.rs), the effects that hand its changes to the
 * timer driver, and the driver's table (crates/b2bua/src/timers.rs).
 */
module Timers {
  datatype TimerType =
    | ServiceHttpAnswer(correlationId: string)
    | ServiceAdmitAnswer(correlationId: string, change: nat)
    | FailureAnswer(change: nat, unanswered: string)
    | ReleaseAnswer(change: nat)
    | NoAnswer
    | PossiblyConfirmed(tag: string)
    | Service(serviceId: string, name: string)
    | Core(name: string)

  datatype Scope =
    | CallScope
    | SetupScope
    | AttemptScope(id: nat)
    | LegScope(legId: string)
    | ObligationScope(obligation: nat)

  datatype TimerKey = TimerKey(timerType: TimerType, scope: Scope)

  datatype TimerEntry = TimerEntry(key: TimerKey, generation: nat, fireAt: int)

  /** The entries in arming order, and the last generation handed out. */
  datatype Ledger = Ledger(entries: seq<TimerEntry>, generation: nat)

  /** The deadlines of answers awaited off the call's turn. */
  predicate IsAnswerDeadline(t: TimerType) {
    t.ServiceHttpAnswer? || t.ServiceAdmitAnswer? || t.FailureAnswer? || t.ReleaseAnswer?
  }

  /**
   * The part of a key two keys are compared by: all of it, but for the payload a
   * failure deadline carries along.
   */
  function Identity(key: TimerKey): TimerKey {
    if key.timerType.FailureAnswer? then key.(timerType := FailureAnswer(key.timerType.change, ""))
    else key
  }

  predicate SameKey(a: TimerKey, b: TimerKey) {
    Identity(a) == Identity(b)
  }

  /** A key's identity with a generation: one arming of that key. */
  type Instance = (TimerKey, nat)

  function InstanceOf(e: TimerEntry): Instance {
    (Identity(e.key), e.generation)
  }

  // ---- Selecting entries ------------------------------------------------

  /** `answer` ends `armed`: same kind, same id or change number. */
  predicate Closes(armed: TimerType, answer: TimerType) {
    match (armed, answer)
    case (ServiceHttpAnswer(a), ServiceHttpAnswer(b)) => a == b
    case (ServiceAdmitAnswer(a, _), ServiceAdmitAnswer(b, _)) => a == b
    case (FailureAnswer(a, _), FailureAnswer(b, _)) => a == b
    case (ReleaseAnswer(a), ReleaseAnswer(b)) => a == b
    case _ => false
  }

  /** The conditions timers are taken off the ledger by. */
  datatype Selector =
    | Keyed(key: TimerKey)
    | Among(keys: set<TimerKey>)
    | Closing(answer: TimerType)
    | OfAttempt(id: nat)

  predicate Selects(sel: Selector, e: TimerEntry) {
    match sel
    case Keyed(key) => SameKey(e.key, key)
    case Among(keys) => Identity(e.key) in keys
    case Closing(answer) => Closes(e.key.timerType, answer)
    case OfAttempt(id) => e.key.scope == AttemptScope(id)
  }

  /** The entries `sel` leaves, in order. */
  function Kept(es: seq<TimerEntry>, sel: Selector): seq<TimerEntry> {
    if es == [] then []
    else if Selects(sel, es[0]) then Kept(es[1..], sel)
    else [es[0]] + Kept(es[1..], sel)
  }

  /** The entries `sel` takes, in order. */
  function Taken(es: seq<TimerEntry>, sel: Selector): seq<TimerEntry> {
    if es == [] then []
    else if Selects(sel, es[0]) then [es[0]] + Taken(es[1..], sel)
    else Taken(es[1..], sel)
  }

  /** The two selections split the entries: kept and taken, nothing else. */
  lemma {:induction false} Partition(es: seq<TimerEntry>, sel: Selector)
    ensures forall e :: e in Kept(es, sel) <==> e in es && !Selects(sel, e)
    ensures forall e :: e in Taken(es, sel) <==> e in es && Selects(sel, e)
  {
    if es != [] {
      Partition(es[1..], sel);
      assert es == [es[0]] + es[1..];
    }
  }

  lemma Grouped(a: seq<TimerEntry>, b: seq<TimerEntry>, c: seq<TimerEntry>)
    ensures (a + b) + c == a + (b + c)
  {
  }

  lemma {:induction false} KeptAppend(a: seq<TimerEntry>, b: seq<TimerEntry>, sel: Selector)
    ensures Kept(a + b, sel) == Kept(a, sel) + Kept(b, sel)
    ensures Taken(a + b, sel) == Taken(a, sel) + Taken(b, sel)
  {
    if a == [] {
      assert a + b == b;
    } else {
      assert (a + b)[1..] == a[1..] + b;
      KeptAppend(a[1..], b, sel);
      Grouped([a[0]], Kept(a[1..], sel), Kept(b, sel));
      Grouped([a[0]], Taken(a[1..], sel), Taken(b, sel));
    }
  }

  lemma {:induction false} KeptAll(es: seq<TimerEntry>, sel: Selector)
    requires forall e :: e in es ==> !Selects(sel, e)
    ensures Kept(es, sel) == es
  {
    if es != [] { KeptAll(es[1..], sel); }
  }

  // ---- The ledger's writers ---------------------------------------------

  /** The ledger with `key` armed under the next generation. */
  function Arm(l: Ledger, key: TimerKey, fireAt: int): Ledger {
    Ledger(Kept(l.entries, Keyed(key)) + [TimerEntry(key, l.generation + 1, fireAt)], l.generation + 1)
  }

  function Retire(l: Ledger, sel: Selector): Ledger {
    l.(entries := Kept(l.entries, sel))
  }

  ghost predicate Holds(l: Ledger, key: TimerKey) {
    exists e :: e in l.entries && SameKey(e.key, key)
  }

  ghost predicate HoldsInstance(l: Ledger, i: Instance) {
    exists e :: e in l.entries && InstanceOf(e) == i
  }

  /**
   * What every ledger keeps: one entry per key, generations in arming order
   * and none above the counter.
   */
  ghost predicate Ordered(es: seq<TimerEntry>, generation: nat) {
    && (forall i, j :: 0 <= i < j < |es| ==> es[i].generation < es[j].generation)
    && (forall i :: 0 <= i < |es| ==> es[i].generation <= generation)
  }

  ghost predicate OnePerKey(es: seq<TimerEntry>) {
    forall i, j :: 0 <= i < j < |es| ==> !SameKey(es[i].key, es[j].key)
  }

  ghost predicate Valid(l: Ledger) {
    Ordered(l.entries, l.generation) && OnePerKey(l.entries)
  }

  lemma {:induction false} KeptValid(es: seq<TimerEntry>, generation: nat, sel: Selector)
    requires Valid(Ledger(es, generation))
    ensures Valid(Ledger(Kept(es, sel), generation))
  {
    if es != [] {
      TailValid(es, generation);
      KeptValid(es[1..], generation, sel);
      Partition(es[1..], sel);
      PushFrontValid(es[0], Kept(es[1..], sel), generation);
    }
  }

  lemma TailValid(es: seq<TimerEntry>, generation: nat)
    requires Valid(Ledger(es, generation)) && es != []
    ensures Valid(Ledger(es[1..], generation))
    ensures forall e :: e in es[1..] ==> es[0].generation < e.generation && !SameKey(es[0].key, e.key)
  {
  }

  lemma PushFrontValid(e: TimerEntry, es: seq<TimerEntry>, generation: nat)
    requires Valid(Ledger(es, generation)) && e.generation <= generation
    requires forall x :: x in es ==> e.generation < x.generation && !SameKey(e.key, x.key)
    ensures Valid(Ledger([e] + es, generation))
  {
  }

  lemma {:induction false} RetireValid(l: Ledger, sel: Selector)
    requires Valid(l)
    ensures Valid(Retire(l, sel))
  {
    KeptValid(l.entries, l.generation, sel);
  }

  lemma {:induction false} ArmValid(l: Ledger, key: TimerKey, fireAt: int)
    requires Valid(l)
    ensures Valid(Arm(l, key, fireAt))
  {
    KeptValid(l.entries, l.generation, Keyed(key));
    Partition(l.entries, Keyed(key));
    var kept := Kept(l.entries, Keyed(key));
    forall i | 0 <= i < |kept| ensures !SameKey(kept[i].key, key) {
      assert kept[i] in kept;
    }
  }

  /** Under one entry per key, an instance names its entry. */
  lemma SameEntry(l: Ledger, a: TimerEntry, b: TimerEntry)
    requires Valid(l) && a in l.entries && b in l.entries
    requires SameKey(a.key, b.key)
    ensures a == b
  {
  }

  // ---- The driver -------------------------------------------------------

  /** The critical effects that reach the timer driver. */
  datatype DriverCommand =
    | ScheduleTimer(entry: TimerEntry)
    | CancelTimer(key: TimerKey)
    | CancelAllTimers

  /** The driver's live timers of one call: the generation each key was scheduled under. */
  type Driver = map<TimerKey, nat>

  function Run(d: Driver, c: DriverCommand): Driver {
    match c
    case ScheduleTimer(e) => d[Identity(e.key) := e.generation]
    case CancelTimer(key) => d - {Identity(key)}
    case CancelAllTimers => map[]
  }

  /** The driver once `cs` ran in order. */
  function RunAll(d: Driver, cs: seq<DriverCommand>): Driver {
    if cs == [] then d else Run(RunAll(d, cs[..|cs| - 1]), cs[|cs| - 1])
  }

  lemma RunAllPush(d: Driver, cs: seq<DriverCommand>, c: DriverCommand)
    ensures RunAll(d, cs + [c]) == Run(RunAll(d, cs), c)
  {
  }

  lemma {:induction false} RunAllAppend(d: Driver, a: seq<DriverCommand>, b: seq<DriverCommand>)
    ensures RunAll(d, a + b) == RunAll(RunAll(d, a), b)
  {
    if b == [] {
      assert a + b == a;
    } else {
      var front := b[..|b| - 1];
      assert a + b == (a + front) + [b[|b| - 1]];
      RunAllAppend(d, a, front);
      RunAllPush(d, a + front, b[|b| - 1]);
    }
  }

  /** One cancel per entry taken, in ledger order. */
  function Cancels(es: seq<TimerEntry>): (cs: seq<DriverCommand>)
    ensures |cs| == |es| && forall i :: 0 <= i < |es| ==> cs[i] == CancelTimer(es[i].key)
  {
    seq(|es|, i requires 0 <= i < |es| => CancelTimer(es[i].key))
  }

  /** Cancelling a selection leaves the driver's other keys as they were. */
  lemma {:induction false} RunCancels(d: Driver, es: seq<TimerEntry>, key: TimerKey)
    requires forall e :: e in es ==> !SameKey(e.key, key)
    ensures Identity(key) in d <==> Identity(key) in RunAll(d, Cancels(es))
    ensures Identity(key) in d ==> RunAll(d, Cancels(es))[Identity(key)] == d[Identity(key)]
  {
    if es != [] {
      var front := es[..|es| - 1];
      assert Cancels(es)[..|es| - 1] == Cancels(front);
      assert es[|es| - 1] in es;
      forall e | e in front ensures !SameKey(e.key, key) { assert e in es; }
      RunCancels(d, front, key);
    }
  }

  /** Cancelling schedules nothing. */
  lemma {:induction false} CancelsOnlyRemove(d: Driver, es: seq<TimerEntry>)
    ensures RunAll(d, Cancels(es)).Keys <= d.Keys
    ensures forall k :: k in RunAll(d, Cancels(es)) ==> RunAll(d, Cancels(es))[k] == d[k]
  {
    if es != [] {
      assert Cancels(es)[..|es| - 1] == Cancels(es[..|es| - 1]);
      CancelsOnlyRemove(d, es[..|es| - 1]);
    }
  }

  /** What commands leave in an emptied driver they leave in any. */
  lemma {:induction false} RunFromEmpty(d: Driver, cs: seq<DriverCommand>)
    ensures RunAll(map[], cs).Keys <= RunAll(d, cs).Keys
    ensures forall k :: k in RunAll(map[], cs) ==> RunAll(map[], cs)[k] == RunAll(d, cs)[k]
  {
    if cs != [] {
      RunFromEmpty(d, cs[..|cs| - 1]);
    }
  }
}
