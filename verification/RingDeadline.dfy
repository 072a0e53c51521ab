/**
 * A dialled leg's ring deadline (crates/b2bua-core/src/ring_deadline.rs), held
 * inside the INVITE transaction's bound (crates/b2bua-sdk/src/config.rs).
 */
module RingDeadline {
  import opened Wrappers
  import opened Timers
  import opened Legs
  import opened CallModel
  import Int64

  const CANCEL_MARGIN_SEC: int := 8
  const MIN_BOUND_SEC: int := 33
  const MAX_BOUND_SEC: int := 600

  /** A validated INVITE transaction bound, in seconds. */
  predicate Validated(boundSec: int) { MIN_BOUND_SEC <= boundSec <= MAX_BOUND_SEC }

  /** An instant a node's clock reads: a non-negative 64-bit count of milliseconds. */
  predicate Instant(ms: int) { 0 <= ms <= Int64.MAX }

  function ClampNoAnswer(boundSec: int, requestedMs: int): int {
    var ceiling := Int64.Clamp((boundSec - CANCEL_MARGIN_SEC) * 1000);
    if requestedMs < ceiling then requestedMs else ceiling
  }

  function HeldUnderBound(boundSec: int, sentAt: int, wanted: int): int {
    Int64.SatAdd(sentAt, ClampNoAnswer(boundSec, Int64.SatSub(wanted, sentAt)))
  }

  /** How long `leg` may ring, from its attempt, clamped to 64 bits. */
  function RingMs(attempts: seq<Attempt>, leg: Leg): Option<nat> {
    if leg.attempt.None? then None
    else
      var attempt := FindAttempt(attempts, leg.attempt.value);
      if attempt.None? || attempt.value.noAnswer.None? then None
      else Some(if attempt.value.noAnswer.value > Int64.MAX then Int64.MAX else attempt.value.noAnswer.value)
  }

  predicate RingsUnanswered(leg: Leg) {
    leg.State() == LegTrying || leg.State() == LegEarly
  }

  function RingKey(legId: string): TimerKey { TimerKey(NoAnswer, LegScope(legId)) }

  // ---- What each path arms ----------------------------------------------

  /** The deadline the first 18x to `cseq` arms on `legId`, if it arms one. */
  function DueAt18x(boundSec: int, legs: seq<Leg>, attempts: seq<Attempt>, legId: string, cseq: int, nowMs: int): Option<int> {
    var leg := FindLeg(legs, legId);
    if leg.None? || leg.value.dialled.None? || leg.value.rang || leg.value.dialled.value.cseq != cseq
       || !RingsUnanswered(leg.value) || RingMs(attempts, leg.value).None?
    then None
    else
      var wanted := Int64.SatAdd(nowMs, RingMs(attempts, leg.value).value);
      Some(HeldUnderBound(boundSec, leg.value.dialled.value.sentAtMs, wanted))
  }

  /** The deadline a restore runs `leg` by from its INVITE, if it is unrung. */
  function DueAtRestore(boundSec: int, timers: seq<TimerEntry>, attempts: seq<Attempt>, leg: Leg): Option<int> {
    if leg.rang || !RingsUnanswered(leg) || leg.dialled.None? then None
    else
      var invite := leg.dialled.value;
      if invite.finalReceived.Some? || invite.cancelSent then None
      else if Taken(timers, Keyed(RingKey(leg.legId))) != [] || RingMs(attempts, leg).None? then None
      else Some(HeldUnderBound(boundSec, invite.sentAtMs, Int64.SatAdd(invite.sentAtMs, RingMs(attempts, leg).value)))
  }

  function Unrung(boundSec: int, timers: seq<TimerEntry>, attempts: seq<Attempt>, legs: seq<Leg>): seq<(string, int)> {
    if legs == [] then []
    else
      var front, leg := Unrung(boundSec, timers, attempts, legs[..|legs| - 1]), legs[|legs| - 1];
      match DueAtRestore(boundSec, timers, attempts, leg)
      case None => front
      case Some(at) => front + [(leg.legId, at)]
  }

  function ArmLegs(l: Ledger, due: seq<(string, int)>): Ledger {
    if due == [] then l
    else Arm(ArmLegs(l, due[..|due| - 1]), RingKey(due[|due| - 1].0), due[|due| - 1].1)
  }

  function Restored(boundSec: int, l: Ledger, attempts: seq<Attempt>, legs: seq<Leg>): Ledger {
    ArmLegs(l, Unrung(boundSec, l.entries, attempts, legs))
  }

  function Rung(boundSec: int, l: Ledger, attempts: seq<Attempt>, legs: seq<Leg>, legId: string, cseq: int, nowMs: int): Ledger {
    match DueAt18x(boundSec, legs, attempts, legId, cseq, nowMs)
    case None => l
    case Some(at) => Arm(l, RingKey(legId), at)
  }

  /** Take an 18x on `legId`: arm what `DueAt18x` says, if anything. */
  method ArmAtFirst18x(boundSec: int, call: Call, fx: HandlerEffects, legId: string, cseq: int, nowMs: int)
    modifies call`timers, call`timerGeneration, fx`critical
    ensures call.TimerLedger() == Rung(boundSec, old(call.TimerLedger()), call.attempts, call.bLegs, legId, cseq, nowMs)
    ensures fx.critical == old(fx.critical)
      + if call.timerGeneration == old(call.timerGeneration) then [] else [ScheduleTimer(call.timers[|call.timers| - 1])]
  {
    var leg := FindLeg(call.bLegs, legId);
    if leg.None? || leg.value.dialled.None? {
      return;
    }
    if leg.value.rang || leg.value.dialled.value.cseq != cseq || !RingsUnanswered(leg.value) {
      return;
    }
    var ms := RingMs(call.attempts, leg.value);
    if ms.None? {
      return;
    }
    var wanted := Int64.SatAdd(nowMs, ms.value);
    ArmScheduled(call, fx, RingKey(legId), HeldUnderBound(boundSec, leg.value.dialled.value.sentAtMs, wanted));
  }

  /** Arm every leg `DueAtRestore` gives an instant for, all judged on the ledger as found. */
  method ArmUnrungAfterRestore(boundSec: int, call: Call)
    modifies call`timers, call`timerGeneration
    ensures call.TimerLedger() == Restored(boundSec, old(call.TimerLedger()), call.attempts, call.bLegs)
  {
    var unrung := [];
    for i := 0 to |call.bLegs|
      invariant call.TimerLedger() == old(call.TimerLedger())
      invariant unrung == Unrung(boundSec, call.timers, call.attempts, call.bLegs[..i])
    {
      assert call.bLegs[..i + 1][..i] == call.bLegs[..i];
      match DueAtRestore(boundSec, call.timers, call.attempts, call.bLegs[i]) {
        case None =>
        case Some(at) => unrung := unrung + [(call.bLegs[i].legId, at)];
      }
    }
    assert call.bLegs[..|call.bLegs|] == call.bLegs;
    for i := 0 to |unrung|
      invariant call.TimerLedger() == ArmLegs(old(call.TimerLedger()), unrung[..i])
    {
      assert unrung[..i + 1][..i] == unrung[..i];
      var _ := call.ArmTimer(RingKey(unrung[i].0), unrung[i].1);
    }
    assert unrung[..|unrung|] == unrung;
  }

  // ---- The bound --------------------------------------------------------

  /** The held deadline is the one wanted, cut to the bound less the margin, with no clock range to spare lost. */
  lemma HeldExactly(boundSec: int, sentAt: int, wanted: int)
    requires Validated(boundSec) && Instant(sentAt) && Instant(wanted)
    ensures
      var ceiling := sentAt + (boundSec - CANCEL_MARGIN_SEC) * 1000;
      HeldUnderBound(boundSec, sentAt, wanted) == if wanted < ceiling then wanted else Int64.Clamp(ceiling)
  {
  }

  /**
   * Whatever path armed it, a ring deadline leaves the CANCEL its margin inside
   * the INVITE's transaction.
   */
  lemma ArmedInsideTheBound(boundSec: int, timers: seq<TimerEntry>, attempts: seq<Attempt>, legs: seq<Leg>, leg: Leg,
                            legId: string, cseq: int, nowMs: int)
    requires Validated(boundSec) && Instant(nowMs)
    requires FindLeg(legs, legId) == Some(leg) && leg.dialled.Some? && Instant(leg.dialled.value.sentAtMs)
    ensures
      var sentAt, last := leg.dialled.value.sentAtMs, leg.dialled.value.sentAtMs + boundSec * 1000;
      var rung, restored := DueAt18x(boundSec, legs, attempts, legId, cseq, nowMs), DueAtRestore(boundSec, timers, attempts, leg);
      && (rung.Some? ==> rung.value + CANCEL_MARGIN_SEC * 1000 <= last)
      && (restored.Some? ==> restored.value + CANCEL_MARGIN_SEC * 1000 <= last)
      && (rung.Some? && sentAt <= nowMs ==> sentAt <= rung.value)
  {
  }

  /** The attempt that dialled the leg lets it ring `ms`. */
  ghost predicate MayRing(attempts: seq<Attempt>, leg: Leg, ms: int) {
    exists i ::
      && 0 <= i < |attempts| && leg.attempt == Some(attempts[i].id) && attempts[i].noAnswer.Some?
      && ms == Int64.Clamp(attempts[i].noAnswer.value) && forall k :: 0 <= k < i ==> attempts[k].id != attempts[i].id
  }

  lemma {:induction false} RingMsIs(attempts: seq<Attempt>, leg: Leg, ms: int)
    ensures RingMs(attempts, leg) == Some(ms) <==> MayRing(attempts, leg, ms)
  {
    if leg.attempt.Some? {
      FirstOf(attempts, leg.attempt.value);
      if RingMs(attempts, leg) == Some(ms) {
        var i :| 0 <= i < |attempts| && attempts[i] == FindAttempt(attempts, leg.attempt.value).value
          && attempts[i].id == leg.attempt.value && forall k :: 0 <= k < i ==> attempts[k].id != leg.attempt.value;
      }
    }
  }

  lemma {:induction false} FirstOf(attempts: seq<Attempt>, id: nat)
    ensures FindAttempt(attempts, id).None? ==> forall i :: 0 <= i < |attempts| ==> attempts[i].id != id
    ensures FindAttempt(attempts, id).Some? ==> exists i ::
      && 0 <= i < |attempts| && attempts[i] == FindAttempt(attempts, id).value && attempts[i].id == id
      && forall k :: 0 <= k < i ==> attempts[k].id != id
  {
    if attempts != [] && attempts[0].id != id {
      var rest := attempts[1..];
      assert forall i :: 0 <= i < |rest| ==> rest[i] == attempts[i + 1];
      FirstOf(rest, id);
      if FindAttempt(rest, id).None? {
        forall i | 0 <= i < |attempts| ensures attempts[i].id != id {
          if i > 0 { assert attempts[i] == rest[i - 1]; }
        }
      } else {
        var j :| 0 <= j < |rest| && rest[j] == FindAttempt(rest, id).value && rest[j].id == id && forall k :: 0 <= k < j ==> rest[k].id != id;
        forall k | 0 <= k < j + 1 ensures attempts[k].id != id {
          if k > 0 { assert attempts[k] == rest[k - 1]; }
        }
        assert attempts[j + 1] == rest[j];
      }
    }
  }

  /** The instant `wanted` cut to the bound of an INVITE sent at `sentAt`, its CANCEL margin taken off. */
  function CutToBound(boundSec: int, sentAt: int, wanted: int): int {
    var ceiling := sentAt + (boundSec - 8) * 1000;
    Int64.Clamp(if wanted < ceiling then wanted else ceiling)
  }

  /**
   * Exactly when the first 18x arms a deadline, and which: on a dialled leg that
   * has not rung, neither confirmed nor on its way out, to its own INVITE, under
   * an attempt with a ring deadline, that long after the 18x, cut to the bound.
   */
  lemma {:induction false} RungExactly(boundSec: int, legs: seq<Leg>, attempts: seq<Attempt>, leg: Leg, cseq: int, nowMs: int, at: int)
    requires Validated(boundSec) && Instant(nowMs) && FindLeg(legs, leg.legId) == Some(leg)
    requires leg.dialled.Some? ==> Instant(leg.dialled.value.sentAtMs)
    ensures DueAt18x(boundSec, legs, attempts, leg.legId, cseq, nowMs) == Some(at) <==>
      && leg.dialled.Some? && leg.dialled.value.cseq == cseq && !leg.rang
      && !OnItsWayOut(leg) && (forall d :: d in leg.dialogs ==> d.state != Confirmed)
      && exists ms :: MayRing(attempts, leg, ms) && at == CutToBound(boundSec, leg.dialled.value.sentAtMs, nowMs + ms)
  {
    LegStates(leg);
    DueForMs(boundSec, attempts, leg, nowMs, at);
  }

  /** The same of the deadline a restore arms, from the INVITE, on a leg with none armed. */
  lemma {:induction false} RestoredExactly(boundSec: int, timers: seq<TimerEntry>, attempts: seq<Attempt>, leg: Leg, at: int)
    requires Validated(boundSec) && (leg.dialled.Some? ==> Instant(leg.dialled.value.sentAtMs))
    ensures DueAtRestore(boundSec, timers, attempts, leg) == Some(at) <==>
      && leg.dialled.Some? && !leg.rang && !OnItsWayOut(leg) && (forall d :: d in leg.dialogs ==> d.state != Confirmed)
      && (forall e :: e in timers ==> e.key != TimerKey(NoAnswer, LegScope(leg.legId)))
      && exists ms :: MayRing(attempts, leg, ms) && at == CutToBound(boundSec, leg.dialled.value.sentAtMs, leg.dialled.value.sentAtMs + ms)
  {
    LegStates(leg);
    Partition(timers, Keyed(RingKey(leg.legId)));
    NoneTaken(timers, leg.legId);
    if leg.dialled.Some? { DueForMs(boundSec, attempts, leg, leg.dialled.value.sentAtMs, at); }
  }

  lemma {:induction false} NoneTaken(timers: seq<TimerEntry>, legId: string)
    ensures Taken(timers, Keyed(RingKey(legId))) == [] <==> forall e :: e in timers ==> e.key != TimerKey(NoAnswer, LegScope(legId))
  {
    var taken := Taken(timers, Keyed(RingKey(legId)));
    Partition(timers, Keyed(RingKey(legId)));
    if taken != [] {
      assert taken[0] in taken;
    }
  }

  /** The instant armed for a leg ringing from `fromMs`. */
  lemma {:induction false} DueForMs(boundSec: int, attempts: seq<Attempt>, leg: Leg, fromMs: int, at: int)
    requires Validated(boundSec) && Instant(fromMs) && (leg.dialled.Some? ==> Instant(leg.dialled.value.sentAtMs))
    ensures leg.dialled.Some? ==>
      ((RingMs(attempts, leg).Some? && at == HeldUnderBound(boundSec, leg.dialled.value.sentAtMs, Int64.SatAdd(fromMs, RingMs(attempts, leg).value)))
       <==> exists ms :: MayRing(attempts, leg, ms) && at == CutToBound(boundSec, leg.dialled.value.sentAtMs, fromMs + ms))
  {
    if leg.dialled.Some? {
      var sentAt := leg.dialled.value.sentAtMs;
      if RingMs(attempts, leg).Some? {
        var ms := RingMs(attempts, leg).value;
        RingMsIs(attempts, leg, ms);
        HeldExactly(boundSec, sentAt, Int64.SatAdd(fromMs, ms));
      }
      forall ms | MayRing(attempts, leg, ms) ensures RingMs(attempts, leg) == Some(ms) {
        RingMsIs(attempts, leg, ms);
      }
    }
  }

  /** A leg that still rings has no final and no CANCEL: the restore's own check of both is implied. */
  lemma RingingHasNoFinal(leg: Leg)
    requires RingsUnanswered(leg) && leg.dialled.Some?
    ensures leg.dialled.value.finalReceived.None? && !leg.dialled.value.cancelSent
  {
  }

  // ---- Restoring --------------------------------------------------------

  ghost predicate DistinctLegs(legs: seq<Leg>) {
    forall i, j :: 0 <= i < j < |legs| ==> legs[i].legId != legs[j].legId
  }

  /** The legs a restore arms, each with its deadline. */
  lemma {:induction false} UnrungMembers(boundSec: int, timers: seq<TimerEntry>, attempts: seq<Attempt>, legs: seq<Leg>, due: (string, int))
    ensures due in Unrung(boundSec, timers, attempts, legs)
      <==> exists leg :: leg in legs && leg.legId == due.0 && DueAtRestore(boundSec, timers, attempts, leg) == Some(due.1)
  {
    if legs != [] {
      var front, leg := legs[..|legs| - 1], legs[|legs| - 1];
      UnrungMembers(boundSec, timers, attempts, front, due);
      assert legs == front + [leg];
      if due in Unrung(boundSec, timers, attempts, legs) && due !in Unrung(boundSec, timers, attempts, front) {
        assert leg in legs && leg.legId == due.0;
      }
    }
  }

  /** Every leg armed is held; under distinct legs, by the deadline asked for it. */
  lemma {:induction false} ArmLegsHolds(l: Ledger, due: seq<(string, int)>, legId: string)
    requires exists at :: (legId, at) in due
    ensures exists e :: e in ArmLegs(l, due).entries && e.key == RingKey(legId) && (legId, e.fireAt) in due
  {
    var front, last := due[..|due| - 1], due[|due| - 1];
    var before := ArmLegs(l, front);
    var armed := TimerEntry(RingKey(last.0), before.generation + 1, last.1);
    assert armed in ArmLegs(l, due).entries && last in due;
    if last.0 != legId {
      var at :| (legId, at) in due;
      assert (legId, at) in front;
      ArmLegsHolds(l, front, legId);
      var e :| e in before.entries && e.key == RingKey(legId) && (legId, e.fireAt) in front;
      Partition(before.entries, Keyed(RingKey(last.0)));
      assert e in ArmLegs(l, due).entries && (legId, e.fireAt) in due;
    }
  }

  /** A restore drops no key the ledger held. */
  lemma {:induction false} ArmLegsKeeps(l: Ledger, due: seq<(string, int)>, key: TimerKey)
    requires Holds(l, key)
    ensures Holds(ArmLegs(l, due), key)
  {
    if due != [] {
      var front, last := due[..|due| - 1], due[|due| - 1];
      ArmLegsKeeps(l, front, key);
      var before := ArmLegs(l, front);
      var e :| e in before.entries && SameKey(e.key, key);
      Partition(before.entries, Keyed(RingKey(last.0)));
      var armed := TimerEntry(RingKey(last.0), before.generation + 1, last.1);
      assert armed in ArmLegs(l, due).entries;
      if !SameKey(e.key, RingKey(last.0)) { assert e in ArmLegs(l, due).entries; }
    }
  }

  /** After a restore, every leg it would arm holds its deadline. */
  lemma {:induction false} RestoredHoldsAll(boundSec: int, l: Ledger, attempts: seq<Attempt>, legs: seq<Leg>, leg: Leg)
    requires leg in legs
    ensures DueAtRestore(boundSec, Restored(boundSec, l, attempts, legs).entries, attempts, leg).None?
  {
    var after := Restored(boundSec, l, attempts, legs);
    var due := DueAtRestore(boundSec, l.entries, attempts, leg);
    Partition(after.entries, Keyed(RingKey(leg.legId)));
    Partition(l.entries, Keyed(RingKey(leg.legId)));
    if due.Some? {
      UnrungMembers(boundSec, l.entries, attempts, legs, (leg.legId, due.value));
      ArmLegsHolds(l, Unrung(boundSec, l.entries, attempts, legs), leg.legId);
      var e :| e in after.entries && e.key == RingKey(leg.legId);
      assert e in Taken(after.entries, Keyed(RingKey(leg.legId)));
    } else if Taken(l.entries, Keyed(RingKey(leg.legId))) != [] {
      var held := Taken(l.entries, Keyed(RingKey(leg.legId)))[0];
      assert held in Taken(l.entries, Keyed(RingKey(leg.legId)));
      ArmLegsKeeps(l, Unrung(boundSec, l.entries, attempts, legs), RingKey(leg.legId));
      var e :| e in after.entries && SameKey(e.key, RingKey(leg.legId));
      assert e in Taken(after.entries, Keyed(RingKey(leg.legId)));
    }
  }

  lemma {:induction false} UnrungNone(boundSec: int, timers: seq<TimerEntry>, attempts: seq<Attempt>, legs: seq<Leg>)
    requires forall leg :: leg in legs ==> DueAtRestore(boundSec, timers, attempts, leg).None?
    ensures Unrung(boundSec, timers, attempts, legs) == []
  {
    if legs != [] { UnrungNone(boundSec, timers, attempts, legs[..|legs| - 1]); }
  }

  /** Restoring twice is restoring once. */
  lemma {:induction false} RestoreIsIdempotent(boundSec: int, l: Ledger, attempts: seq<Attempt>, legs: seq<Leg>)
    ensures
      var once := Restored(boundSec, l, attempts, legs);
      Restored(boundSec, once, attempts, legs) == once
  {
    var once := Restored(boundSec, l, attempts, legs);
    forall leg | leg in legs ensures DueAtRestore(boundSec, once.entries, attempts, leg).None? {
      RestoredHoldsAll(boundSec, l, attempts, legs, leg);
    }
    UnrungNone(boundSec, once.entries, attempts, legs);
  }

  /** The instant `key` is armed for. */
  ghost predicate ArmedFor(l: Ledger, key: TimerKey, at: int) {
    exists e :: e in l.entries && SameKey(e.key, key) && e.fireAt == at
  }

  /**
   * Whatever a restore armed before it, a first 18x that arms a deadline leaves
   * the leg the one deadline it would have armed alone.
   */
  lemma {:induction false} RestoreThenRing(boundSec: int, l: Ledger, attempts: seq<Attempt>, legs: seq<Leg>, legId: string, cseq: int, nowMs: int)
    requires DueAt18x(boundSec, legs, attempts, legId, cseq, nowMs).Some?
    ensures
      var rung := DueAt18x(boundSec, legs, attempts, legId, cseq, nowMs).value;
      var restored := Restored(boundSec, l, attempts, legs);
      && (forall t :: ArmedFor(Rung(boundSec, restored, attempts, legs, legId, cseq, nowMs), RingKey(legId), t) <==> t == rung)
      && (forall t :: ArmedFor(Rung(boundSec, l, attempts, legs, legId, cseq, nowMs), RingKey(legId), t) <==> t == rung)
  {
    var rung := DueAt18x(boundSec, legs, attempts, legId, cseq, nowMs).value;
    ArmedOnce(Restored(boundSec, l, attempts, legs), RingKey(legId), rung);
    ArmedOnce(l, RingKey(legId), rung);
  }

  /** The deadline a restore gives a leg never comes after the one its first 18x then does. */
  lemma {:induction false} RestoredIsNoLater(boundSec: int, l: Ledger, attempts: seq<Attempt>, legs: seq<Leg>, leg: Leg, cseq: int, nowMs: int)
    requires Validated(boundSec) && DistinctLegs(legs) && leg in legs
    requires leg.dialled.Some? && Instant(leg.dialled.value.sentAtMs) && Instant(nowMs) && leg.dialled.value.sentAtMs <= nowMs
    requires DueAtRestore(boundSec, l.entries, attempts, leg).Some? && leg.dialled.value.cseq == cseq
    ensures
      var at := DueAtRestore(boundSec, l.entries, attempts, leg).value;
      var rung := DueAt18x(boundSec, legs, attempts, leg.legId, cseq, nowMs);
      && ArmedFor(Restored(boundSec, l, attempts, legs), RingKey(leg.legId), at)
      && rung.Some? && at <= rung.value
  {
    FindDistinct(legs, leg);
    var sentAt, ms := leg.dialled.value.sentAtMs, RingMs(attempts, leg).value;
    HeldExactly(boundSec, sentAt, Int64.SatAdd(nowMs, ms));
    HeldExactly(boundSec, sentAt, Int64.SatAdd(sentAt, ms));
    RestoredFor(boundSec, l, attempts, legs, leg);
  }

  lemma {:induction false} ArmedOnce(l: Ledger, key: TimerKey, at: int)
    ensures forall t :: ArmedFor(Arm(l, key, at), key, t) <==> t == at
  {
    Partition(l.entries, Keyed(key));
    var armed := TimerEntry(key, l.generation + 1, at);
    assert armed in Arm(l, key, at).entries;
  }

  lemma {:induction false} RestoredFor(boundSec: int, l: Ledger, attempts: seq<Attempt>, legs: seq<Leg>, leg: Leg)
    requires DistinctLegs(legs) && leg in legs && DueAtRestore(boundSec, l.entries, attempts, leg).Some?
    ensures ArmedFor(Restored(boundSec, l, attempts, legs), RingKey(leg.legId), DueAtRestore(boundSec, l.entries, attempts, leg).value)
  {
    var at := DueAtRestore(boundSec, l.entries, attempts, leg).value;
    var due := Unrung(boundSec, l.entries, attempts, legs);
    UnrungMembers(boundSec, l.entries, attempts, legs, (leg.legId, at));
    ArmLegsHolds(l, due, leg.legId);
    var e :| e in ArmLegs(l, due).entries && e.key == RingKey(leg.legId) && (leg.legId, e.fireAt) in due;
    UnrungMembers(boundSec, l.entries, attempts, legs, (leg.legId, e.fireAt));
    var other :| other in legs && other.legId == leg.legId && DueAtRestore(boundSec, l.entries, attempts, other) == Some(e.fireAt);
    assert other == leg;
  }

  lemma {:induction false} FindDistinct(legs: seq<Leg>, leg: Leg)
    requires DistinctLegs(legs) && leg in legs
    ensures FindLeg(legs, leg.legId) == Some(leg)
  {
  }
}
