/**
 * What a call remembers of its outstanding off-turn requests, and how events
 * take them off that list (crates/b2bua-core/src/off_turn.rs, crates/call/src/model/off_turn.rs).
 */
module OffTurn {
  import opened Wrappers
  import opened Timers
  import opened CallModel

  predicate SameRequest(a: OffTurnRequest, b: OffTurnRequest) {
    match (a, b)
    case (Refer(_, _), Refer(_, _)) => true
    case (ServiceHttp(x, _, _), ServiceHttp(y, _, _)) => x == y
    case (Admit(x, _, _), Admit(y, _, _)) => x == y
    case (Failure(_, x), Failure(_, y)) => x.firstChange == y.firstChange
    case (Release(_, x), Release(_, y)) => x.firstChange == y.firstChange
    case _ => false
  }

  /** What the list keeps of an effect; a `Reenter` leaves nothing on it. */
  function ImageOf(fx: OffTurnEffect, nowMs: int): Option<OffTurnRequest> {
    match fx
    case ReferAsyncHttp(request) => Some(Refer(request, nowMs))
    case ServiceHttpRequest(id, image, timeoutMs) => Some(ServiceHttp(id, image, timeoutMs))
    case FailureAsyncHttp(request, limiter, _) => Some(Failure(request, limiter))
    case ReleaseAsyncHttp(request, limiter, _) => Some(Release(request, limiter))
    case LimiterAdmit(id, entries, change) => Some(Admit(id, entries, change))
    case Reenter(_) => None
  }

  /** Whether `event`, an answer or the expiry of a deadline, answers `r`. */
  predicate Settles(event: CallEvent, r: OffTurnRequest) {
    match event
    case Timer(key, _) => (
      match key.timerType
      case ServiceHttpAnswer(id) => r.ServiceHttp? && r.correlationId == id
      case ServiceAdmitAnswer(id, _) => r.Admit? && r.correlationId == id
      case FailureAnswer(change, _) => r.Failure? && r.limiter.firstChange == change
      case ReleaseAnswer(change) => r.Release? && r.limiter.firstChange == change
      case _ => false)
    case Internal(topic, _, payload) => (
      match topic
      case ReferTopic => r.Refer?
      case ServiceHttpResult => r.ServiceHttp? && r.correlationId == Named(payload)
      case LimiterAdmitResult => r.Admit? && r.correlationId == Named(payload)
      case FailureTopic => r.Failure? && Consulted(payload, r.limiter)
      case ReleaseTopic => r.Release? && Consulted(payload, r.limiter)
      case OtherTopic(_) => false)
    case Unrelated(_) => false
  }

  /** The correlation id a payload names, empty when it names none. */
  function Named(payload: Payload): string {
    if payload.correlationId.Some? then payload.correlationId.value else ""
  }

  /** The fold carries this consult's change number, or none at all. */
  predicate Consulted(payload: Payload, limiter: ConsultAdmits) {
    payload.consultChange.None? || payload.consultChange.value == limiter.firstChange
  }

  // ---- The record -------------------------------------------------------

  function Unsettled(rs: seq<OffTurnRequest>, event: CallEvent): seq<OffTurnRequest> {
    if rs == [] then []
    else if Settles(event, rs[0]) then Unsettled(rs[1..], event)
    else [rs[0]] + Unsettled(rs[1..], event)
  }

  function WithoutSame(rs: seq<OffTurnRequest>, r: OffTurnRequest): seq<OffTurnRequest> {
    if rs == [] then []
    else if SameRequest(rs[0], r) then WithoutSame(rs[1..], r)
    else [rs[0]] + WithoutSame(rs[1..], r)
  }

  /** The record once every request `fxs` sends is on it, the last of each kind standing. */
  function Recorded(rs: seq<OffTurnRequest>, fxs: seq<OffTurnEffect>, nowMs: int): seq<OffTurnRequest> {
    if fxs == [] then rs
    else
      var before := Recorded(rs, fxs[..|fxs| - 1], nowMs);
      match ImageOf(fxs[|fxs| - 1], nowMs)
      case None => before
      case Some(request) => WithoutSame(before, request) + [request]
  }

  /** No request is on the record twice. */
  ghost predicate Distinct(rs: seq<OffTurnRequest>) {
    forall i, j :: 0 <= i < j < |rs| ==> !SameRequest(rs[i], rs[j])
  }

  lemma {:induction false} UnsettledMembers(rs: seq<OffTurnRequest>, event: CallEvent)
    ensures forall r :: r in Unsettled(rs, event) <==> r in rs && !Settles(event, r)
  {
    if rs != [] {
      UnsettledMembers(rs[1..], event);
      assert rs == [rs[0]] + rs[1..];
    }
  }

  lemma {:induction false} UnsettledAll(rs: seq<OffTurnRequest>, event: CallEvent)
    requires forall r :: r in rs ==> !Settles(event, r)
    ensures Unsettled(rs, event) == rs
  {
    if rs != [] { UnsettledAll(rs[1..], event); }
  }

  lemma {:induction false} UnsettledAppend(a: seq<OffTurnRequest>, b: seq<OffTurnRequest>, event: CallEvent)
    ensures Unsettled(a + b, event) == Unsettled(a, event) + Unsettled(b, event)
  {
    if a == [] {
      assert a + b == b;
    } else {
      assert (a + b)[1..] == a[1..] + b;
      UnsettledAppend(a[1..], b, event);
    }
  }

  lemma {:induction false} WithoutSameMembers(rs: seq<OffTurnRequest>, r: OffTurnRequest)
    ensures forall x :: x in WithoutSame(rs, r) <==> x in rs && !SameRequest(x, r)
  {
    if rs != [] {
      WithoutSameMembers(rs[1..], r);
      assert rs == [rs[0]] + rs[1..];
    }
  }

  lemma {:induction false} WithoutSameAppend(a: seq<OffTurnRequest>, b: seq<OffTurnRequest>, r: OffTurnRequest)
    ensures WithoutSame(a + b, r) == WithoutSame(a, r) + WithoutSame(b, r)
  {
    if a == [] {
      assert a + b == b;
    } else {
      assert (a + b)[1..] == a[1..] + b;
      WithoutSameAppend(a[1..], b, r);
    }
  }

  lemma {:induction false} WithoutSameDistinct(rs: seq<OffTurnRequest>, r: OffTurnRequest)
    requires Distinct(rs)
    ensures Distinct(WithoutSame(rs, r))
  {
    if rs != [] {
      var rest := rs[1..];
      assert forall i :: 0 <= i < |rest| ==> rest[i] == rs[i + 1];
      WithoutSameDistinct(rest, r);
      WithoutSameMembers(rest, r);
      var kept := WithoutSame(rest, r);
      forall i | 0 <= i < |kept| ensures !SameRequest(rs[0], kept[i]) {
        assert kept[i] in rest;
      }
    }
  }

  lemma {:induction false} UnsettledDistinct(rs: seq<OffTurnRequest>, event: CallEvent)
    requires Distinct(rs)
    ensures Distinct(Unsettled(rs, event))
  {
    if rs != [] {
      var rest := rs[1..];
      assert forall i :: 0 <= i < |rest| ==> rest[i] == rs[i + 1];
      UnsettledDistinct(rest, event);
      UnsettledMembers(rest, event);
      var kept := Unsettled(rest, event);
      forall i | 0 <= i < |kept| ensures !SameRequest(rs[0], kept[i]) {
        assert kept[i] in rest;
      }
    }
  }

  /** What is on the record was on it before, or is the image of an effect of the turn. */
  lemma {:induction false} RecordedFrom(rs: seq<OffTurnRequest>, fxs: seq<OffTurnEffect>, nowMs: int, r: OffTurnRequest)
    requires r in Recorded(rs, fxs, nowMs)
    ensures r in rs || exists fx :: fx in fxs && ImageOf(fx, nowMs) == Some(r)
  {
    if fxs != [] {
      var front, last := fxs[..|fxs| - 1], fxs[|fxs| - 1];
      var before := Recorded(rs, front, nowMs);
      var image := ImageOf(last, nowMs);
      if image.Some? { WithoutSameMembers(before, image.value); }
      if image == Some(r) {
        assert last in fxs;
      } else {
        RecordedFrom(rs, front, nowMs, r);
        if r !in rs {
          var fx :| fx in front && ImageOf(fx, nowMs) == Some(r);
          assert fx in fxs;
        }
      }
    }
  }

  /** Every request of the turn is on the record, under the last effect that sent it. */
  lemma {:induction false} RecordedAll(rs: seq<OffTurnRequest>, fxs: seq<OffTurnEffect>, nowMs: int, fx: OffTurnEffect)
    requires fx in fxs && ImageOf(fx, nowMs).Some?
    ensures exists r :: r in Recorded(rs, fxs, nowMs) && SameRequest(r, ImageOf(fx, nowMs).value)
  {
    var front, last := fxs[..|fxs| - 1], fxs[|fxs| - 1];
    var image := ImageOf(last, nowMs);
    if image.Some? && SameRequest(image.value, ImageOf(fx, nowMs).value) {
      assert image.value in Recorded(rs, fxs, nowMs);
    } else {
      assert fx in front;
      RecordedAll(rs, front, nowMs, fx);
      var r :| r in Recorded(rs, front, nowMs) && SameRequest(r, ImageOf(fx, nowMs).value);
      if image.Some? {
        WithoutSameMembers(Recorded(rs, front, nowMs), image.value);
        assert r in Recorded(rs, fxs, nowMs);
      }
    }
  }

  lemma {:induction false} RecordedDistinct(rs: seq<OffTurnRequest>, fxs: seq<OffTurnEffect>, nowMs: int)
    requires Distinct(rs)
    ensures Distinct(Recorded(rs, fxs, nowMs))
  {
    if fxs != [] {
      var front := fxs[..|fxs| - 1];
      var before := Recorded(rs, front, nowMs);
      RecordedDistinct(rs, front, nowMs);
      var image := ImageOf(fxs[|fxs| - 1], nowMs);
      if image.Some? {
        WithoutSameDistinct(before, image.value);
        WithoutSameMembers(before, image.value);
        var kept := WithoutSame(before, image.value);
        forall i | 0 <= i < |kept| ensures !SameRequest(kept[i], image.value) {
          assert kept[i] in kept;
        }
      }
    }
  }

  // ---- The writers ------------------------------------------------------

  /** Put the images of the turn's effects on the list, or empty it once the call has ended. */
  method Record(call: Call, fx: HandlerEffects, nowMs: int)
    modifies call`awaited
    ensures call.awaited == if call.state == Terminated then [] else Recorded(old(call.awaited), fx.fireAndForget, nowMs)
  {
    if call.state == Terminated {
      call.awaited := [];
      return;
    }
    for i := 0 to |fx.fireAndForget|
      invariant call.awaited == Recorded(old(call.awaited), fx.fireAndForget[..i], nowMs)
    {
      var fxs := fx.fireAndForget;
      assert fxs[..i + 1][..i] == fxs[..i];
      match ImageOf(fxs[i], nowMs)
      case None =>
      case Some(request) =>
        var kept := RetainOthers(call.awaited, request);
        call.awaited := kept + [request];
    }
    assert fx.fireAndForget[..|fx.fireAndForget|] == fx.fireAndForget;
  }

  method RetainOthers(rs: seq<OffTurnRequest>, r: OffTurnRequest) returns (kept: seq<OffTurnRequest>)
    ensures kept == WithoutSame(rs, r)
  {
    kept := [];
    for i := 0 to |rs|
      invariant kept == WithoutSame(rs[..i], r)
    {
      WithoutSameAppend(rs[..i], [rs[i]], r);
      assert rs[..i + 1] == rs[..i] + [rs[i]];
      if !SameRequest(rs[i], r) {
        kept := kept + [rs[i]];
      }
    }
    assert rs[..|rs|] == rs;
  }

  /** Take off the record the request `event` answers. */
  method Settle(call: Call, event: CallEvent)
    modifies call`awaited
    ensures call.awaited == Unsettled(old(call.awaited), event)
  {
    var kept := [];
    for i := 0 to |call.awaited|
      invariant call.awaited == old(call.awaited)
      invariant kept == Unsettled(call.awaited[..i], event)
    {
      UnsettledAppend(call.awaited[..i], [call.awaited[i]], event);
      assert call.awaited[..i + 1] == call.awaited[..i] + [call.awaited[i]];
      if !Settles(event, call.awaited[i]) {
        kept := kept + [call.awaited[i]];
      }
    }
    assert call.awaited[..|call.awaited|] == call.awaited;
    call.awaited := kept;
  }
}
