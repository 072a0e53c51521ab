/**
 * The finals a call keeps so that a repeated non-INVITE request can be answered
 * again until Timer J (crates/b2bua-core/src/answered_finals.rs,
 * section 17.2.2 of RFC 3261).
 */
module AnsweredFinals {
  import opened Wrappers
  import opened CallModel
  import Int64

  const TIMER_J_MS: int := 32_000

  /** A message a turn sends; `server` says it answers through a server transaction. */
  datatype Outbound =
    | Response(server: bool, verb: string, status: nat, branch: Option<string>, image: string)
    | NotAResponse

  /** A final the record keeps: its transaction and its bytes. */
  datatype Final = Final(verb: string, branch: string, image: string)

  function FinalOf(o: Outbound): Option<Final> {
    if o.Response? && o.server && o.status >= 200 && o.verb !in {"INVITE", "CANCEL", "ACK"}
       && o.branch.Some? && o.branch.value != ""
    then Some(Final(o.verb, o.branch.value, o.image)) else None
  }

  predicate CompletedAt(a: AnsweredRequest, nowMs: int) { nowMs < a.untilMs }

  predicate OnTransaction(a: AnsweredRequest, f: Final) { a.branch == f.branch && a.verb == f.verb }

  function StillCompleted(kept: seq<AnsweredRequest>, nowMs: int): seq<AnsweredRequest> {
    if kept == [] then []
    else (if CompletedAt(kept[0], nowMs) then [kept[0]] else []) + StillCompleted(kept[1..], nowMs)
  }

  function WithoutTransaction(kept: seq<AnsweredRequest>, f: Final): seq<AnsweredRequest> {
    if kept == [] then []
    else (if OnTransaction(kept[0], f) then [] else [kept[0]]) + WithoutTransaction(kept[1..], f)
  }

  function Answering(f: Final, nowMs: int): AnsweredRequest {
    AnsweredRequest(f.verb, f.branch, f.image, Int64.SatAdd(nowMs, TIMER_J_MS))
  }

  function KeepEach(kept: seq<AnsweredRequest>, sent: seq<Outbound>, nowMs: int): seq<AnsweredRequest> {
    if sent == [] then kept
    else
      var before := KeepEach(kept, sent[..|sent| - 1], nowMs);
      match FinalOf(sent[|sent| - 1])
      case None => before
      case Some(f) => WithoutTransaction(before, f) + [Answering(f, nowMs)]
  }

  /** The finals kept once a turn landed. */
  function Retained(kept: seq<AnsweredRequest>, state: CallState, sent: seq<Outbound>, nowMs: int): seq<AnsweredRequest> {
    if state == Terminated then [] else KeepEach(StillCompleted(kept, nowMs), sent, nowMs)
  }

  lemma Grouped(a: seq<AnsweredRequest>, b: seq<AnsweredRequest>, c: seq<AnsweredRequest>)
    ensures (a + b) + c == a + (b + c)
  {
  }

  lemma {:induction false} WithoutAppend(a: seq<AnsweredRequest>, b: seq<AnsweredRequest>, f: Final)
    ensures WithoutTransaction(a + b, f) == WithoutTransaction(a, f) + WithoutTransaction(b, f)
  {
    if a == [] { assert a + b == b; } else {
      assert (a + b)[1..] == a[1..] + b;
      WithoutAppend(a[1..], b, f);
      Grouped(if OnTransaction(a[0], f) then [] else [a[0]], WithoutTransaction(a[1..], f), WithoutTransaction(b, f));
    }
  }

  lemma {:induction false} StillAppend(a: seq<AnsweredRequest>, b: seq<AnsweredRequest>, nowMs: int)
    ensures StillCompleted(a + b, nowMs) == StillCompleted(a, nowMs) + StillCompleted(b, nowMs)
  {
    if a == [] { assert a + b == b; } else {
      assert (a + b)[1..] == a[1..] + b;
      StillAppend(a[1..], b, nowMs);
      Grouped(if CompletedAt(a[0], nowMs) then [a[0]] else [], StillCompleted(a[1..], nowMs), StillCompleted(b, nowMs));
    }
  }

  /** Keep the non-INVITE finals the turn sends; drop those past Timer J. */
  method Retain(call: Call, sent: seq<Outbound>, nowMs: int)
    modifies call`answered
    ensures call.answered == Retained(old(call.answered), call.state, sent, nowMs)
  {
    var kept := [];
    for i := 0 to |call.answered|
      invariant call.answered == old(call.answered)
      invariant kept == StillCompleted(call.answered[..i], nowMs)
    {
      StillAppend(call.answered[..i], [call.answered[i]], nowMs);
      assert call.answered[..i + 1] == call.answered[..i] + [call.answered[i]];
      if CompletedAt(call.answered[i], nowMs) { kept := kept + [call.answered[i]]; }
    }
    assert call.answered[..|call.answered|] == call.answered;
    call.answered := kept;
    if call.state == Terminated {
      call.answered := [];
      return;
    }
    for i := 0 to |sent|
      invariant call.answered == KeepEach(kept, sent[..i], nowMs)
    {
      assert sent[..i + 1][..i] == sent[..i];
      match FinalOf(sent[i]) {
        case None =>
        case Some(f) =>
          var others := RetainOtherTransactions(call.answered, f);
          call.answered := others + [Answering(f, nowMs)];
      }
    }
    assert sent[..|sent|] == sent;
  }

  method RetainOtherTransactions(kept: seq<AnsweredRequest>, f: Final) returns (others: seq<AnsweredRequest>)
    ensures others == WithoutTransaction(kept, f)
  {
    others := [];
    for i := 0 to |kept|
      invariant others == WithoutTransaction(kept[..i], f)
    {
      WithoutAppend(kept[..i], [kept[i]], f);
      assert kept[..i + 1] == kept[..i] + [kept[i]];
      if !OnTransaction(kept[i], f) { others := others + [kept[i]]; }
    }
    assert kept[..|kept|] == kept;
  }

  // ---- Over the turns of a call -----------------------------------------

  datatype LandedTurn = LandedTurn(nowMs: int, state: CallState, sent: seq<Outbound>)

  /** The finals kept after `turns`, from a call that kept none. */
  function KeptAfter(turns: seq<LandedTurn>): seq<AnsweredRequest> {
    if turns == [] then []
    else
      var t := turns[|turns| - 1];
      Retained(KeptAfter(turns[..|turns| - 1]), t.state, t.sent, t.nowMs)
  }

  /** The last final a turn sends on the transaction of `verb` and `branch`. */
  function LastFinal(sent: seq<Outbound>, verb: string, branch: string): Option<string> {
    if sent == [] then None
    else
      var f := FinalOf(sent[|sent| - 1]);
      if f.Some? && f.value.verb == verb && f.value.branch == branch then Some(f.value.image)
      else LastFinal(sent[..|sent| - 1], verb, branch)
  }

  /** The `i`th message is a final of the transaction: sent through its server transaction, 2xx or above, of a kept method. */
  predicate IsFinal(sent: seq<Outbound>, i: int, verb: string, branch: string) {
    && 0 <= i < |sent| && sent[i].Response? && sent[i].server && sent[i].status >= 200
    && sent[i].verb == verb && sent[i].branch == Some(branch)
    && branch != "" && verb != "INVITE" && verb != "CANCEL" && verb != "ACK"
  }

  predicate IsLastFinal(sent: seq<Outbound>, i: int, verb: string, branch: string) {
    IsFinal(sent, i, verb, branch) && forall j :: i < j < |sent| ==> !IsFinal(sent, j, verb, branch)
  }

  /** The last final of a transaction is the last such message, byte for byte. */
  lemma {:induction false} LastFinalIs(sent: seq<Outbound>, verb: string, branch: string)
    ensures LastFinal(sent, verb, branch).None? <==> forall i :: !IsFinal(sent, i, verb, branch)
    ensures forall i :: IsLastFinal(sent, i, verb, branch) ==> LastFinal(sent, verb, branch) == Some(sent[i].image)
  {
    if sent != [] {
      var n, front := |sent| - 1, sent[..|sent| - 1];
      LastFinalIs(front, verb, branch);
      assert forall i :: i != n ==> (IsFinal(sent, i, verb, branch) <==> IsFinal(front, i, verb, branch));
      forall i | IsLastFinal(sent, i, verb, branch) ensures LastFinal(sent, verb, branch) == Some(sent[i].image) {
        if i < n {
          assert IsLastFinal(front, i, verb, branch) && !IsFinal(sent, n, verb, branch);
        }
      }
      if IsFinal(sent, n, verb, branch) {
        assert IsLastFinal(sent, n, verb, branch);
      }
    }
  }

  /** Turn `i` sent `a` as the last final of its transaction, and the call lived on. */
  ghost predicate SentBy(turns: seq<LandedTurn>, i: nat, a: AnsweredRequest)
    requires i < |turns|
  {
    && turns[i].state != Terminated
    && LastFinal(turns[i].sent, a.verb, a.branch) == Some(a.response)
    && a.untilMs == Int64.Clamp(turns[i].nowMs + 32_000)
  }

  /** A later turn left `a` alone: it sent no final on the transaction, before Timer J, on a call that lived on. */
  ghost predicate Spares(t: LandedTurn, a: AnsweredRequest) {
    t.state != Terminated && t.nowMs < a.untilMs && LastFinal(t.sent, a.verb, a.branch).None?
  }

  /** `a` is the last final of its transaction, and no turn since passed its Timer J or ended the call. */
  ghost predicate Current(turns: seq<LandedTurn>, a: AnsweredRequest) {
    exists i {:trigger SentBy(turns, i, a)} :: 0 <= i < |turns| && SentBy(turns, i, a) && forall k :: i < k < |turns| ==> Spares(turns[k], a)
  }

  ghost predicate OnePerTransaction(kept: seq<AnsweredRequest>) {
    forall i, j :: 0 <= i < j < |kept| ==> !(kept[i].verb == kept[j].verb && kept[i].branch == kept[j].branch)
  }

  lemma {:induction false} StillMembers(kept: seq<AnsweredRequest>, nowMs: int, a: AnsweredRequest)
    ensures a in StillCompleted(kept, nowMs) <==> a in kept && CompletedAt(a, nowMs)
  {
    if kept != [] {
      StillMembers(kept[1..], nowMs, a);
      assert kept == [kept[0]] + kept[1..];
    }
  }

  lemma {:induction false} WithoutMembers(kept: seq<AnsweredRequest>, f: Final, a: AnsweredRequest)
    ensures a in WithoutTransaction(kept, f) <==> a in kept && !OnTransaction(a, f)
  {
    if kept != [] {
      WithoutMembers(kept[1..], f, a);
      assert kept == [kept[0]] + kept[1..];
    }
  }

  /** After a turn's finals: the last it sent on each transaction, and what it sent none on. */
  lemma {:induction false} KeepEachMembers(kept: seq<AnsweredRequest>, sent: seq<Outbound>, nowMs: int, a: AnsweredRequest)
    ensures a in KeepEach(kept, sent, nowMs) <==>
      (match LastFinal(sent, a.verb, a.branch)
       case None => a in kept
       case Some(image) => a == AnsweredRequest(a.verb, a.branch, image, Int64.SatAdd(nowMs, TIMER_J_MS)))
  {
    if sent != [] {
      var front := sent[..|sent| - 1];
      KeepEachMembers(kept, front, nowMs, a);
      var f := FinalOf(sent[|sent| - 1]);
      if f.Some? { WithoutMembers(KeepEach(kept, front, nowMs), f.value, a); }
    }
  }

  /** The kept finals are exactly the current ones. */
  lemma {:induction false} KeptIsCurrent(turns: seq<LandedTurn>, a: AnsweredRequest)
    ensures a in KeptAfter(turns) <==> Current(turns, a)
  {
    if turns != [] {
      var front, n := turns[..|turns| - 1], |turns| - 1;
      var t := turns[n];
      KeptIsCurrent(front, a);
      StillMembers(KeptAfter(front), t.nowMs, a);
      KeepEachMembers(StillCompleted(KeptAfter(front), t.nowMs), t.sent, t.nowMs, a);
      CurrentStep(turns, a);
    }
  }

  /** Being current, one turn at a time. */
  lemma {:induction false} CurrentStep(turns: seq<LandedTurn>, a: AnsweredRequest)
    requires turns != []
    ensures
      var n := |turns| - 1;
      Current(turns, a) <==> SentBy(turns, n, a) || (Spares(turns[n], a) && Current(turns[..n], a))
  {
    var n := |turns| - 1;
    var front := turns[..n];
    if Current(turns, a) && !SentBy(turns, n, a) {
      var i :| 0 <= i < |turns| && SentBy(turns, i, a) && forall k :: i < k < |turns| ==> Spares(turns[k], a);
      assert i < n && SentBy(front, i, a) && Spares(turns[n], a);
      assert forall k :: i < k < |front| ==> front[k] == turns[k];
    }
    if Spares(turns[n], a) && Current(front, a) {
      var i :| 0 <= i < |front| && SentBy(front, i, a) && forall k :: i < k < |front| ==> Spares(front[k], a);
      assert SentBy(turns, i, a);
      forall k | i < k < |turns| ensures Spares(turns[k], a) {
        if k < n { assert turns[k] == front[k]; }
      }
    }
  }

  lemma {:induction false} WithoutOnePer(kept: seq<AnsweredRequest>, f: Final)
    requires OnePerTransaction(kept)
    ensures OnePerTransaction(WithoutTransaction(kept, f))
  {
    if kept != [] {
      var rest := kept[1..];
      assert forall i :: 0 <= i < |rest| ==> rest[i] == kept[i + 1];
      WithoutOnePer(rest, f);
      var others := WithoutTransaction(rest, f);
      forall i | 0 <= i < |others| ensures !(kept[0].verb == others[i].verb && kept[0].branch == others[i].branch) {
        WithoutMembers(rest, f, others[i]);
        assert others[i] in others;
      }
    }
  }

  lemma {:induction false} StillOnePer(kept: seq<AnsweredRequest>, nowMs: int)
    requires OnePerTransaction(kept)
    ensures OnePerTransaction(StillCompleted(kept, nowMs))
  {
    if kept != [] {
      var rest := kept[1..];
      assert forall i :: 0 <= i < |rest| ==> rest[i] == kept[i + 1];
      StillOnePer(rest, nowMs);
      var still := StillCompleted(rest, nowMs);
      forall i | 0 <= i < |still| ensures !(kept[0].verb == still[i].verb && kept[0].branch == still[i].branch) {
        StillMembers(rest, nowMs, still[i]);
        assert still[i] in still;
      }
    }
  }

  lemma {:induction false} KeepEachOnePer(kept: seq<AnsweredRequest>, sent: seq<Outbound>, nowMs: int)
    requires OnePerTransaction(kept)
    ensures OnePerTransaction(KeepEach(kept, sent, nowMs))
  {
    if sent != [] {
      var front := sent[..|sent| - 1];
      KeepEachOnePer(kept, front, nowMs);
      var before, f := KeepEach(kept, front, nowMs), FinalOf(sent[|sent| - 1]);
      if f.Some? {
        WithoutOnePer(before, f.value);
        var others := WithoutTransaction(before, f.value);
        forall i | 0 <= i < |others| ensures !OnTransaction(others[i], f.value) {
          WithoutMembers(before, f.value, others[i]);
          assert others[i] in others;
        }
      }
    }
  }

  lemma {:induction false} KeptOnePer(turns: seq<LandedTurn>)
    ensures OnePerTransaction(KeptAfter(turns))
  {
    if turns != [] {
      var front, t := turns[..|turns| - 1], turns[|turns| - 1];
      KeptOnePer(front);
      StillOnePer(KeptAfter(front), t.nowMs);
      KeepEachOnePer(StillCompleted(KeptAfter(front), t.nowMs), t.sent, t.nowMs);
    }
  }

  lemma {:induction false} LastFinalIsNonInvite(sent: seq<Outbound>, verb: string, branch: string)
    requires LastFinal(sent, verb, branch).Some?
    ensures verb !in {"INVITE", "CANCEL", "ACK"} && branch != ""
  {
    var f := FinalOf(sent[|sent| - 1]);
    if !(f.Some? && f.value.verb == verb && f.value.branch == branch) {
      LastFinalIsNonInvite(sent[..|sent| - 1], verb, branch);
    }
  }

  /**
   * After any turns the kept finals are a map from transactions: at most one
   * each, exactly the last final sent on the transaction while no turn since
   * passed its Timer J; never an INVITE, CANCEL or ACK one, and none once the
   * call ended.
   */
  lemma {:induction false} KeptFinals(turns: seq<LandedTurn>)
    ensures OnePerTransaction(KeptAfter(turns))
    ensures forall a :: a in KeptAfter(turns) <==> Current(turns, a)
    ensures forall a :: a in KeptAfter(turns) ==> a.verb !in {"INVITE", "CANCEL", "ACK"} && a.branch != ""
    ensures turns != [] && turns[|turns| - 1].state == Terminated ==> KeptAfter(turns) == []
  {
    KeptOnePer(turns);
    forall a ensures a in KeptAfter(turns) <==> Current(turns, a) { KeptIsCurrent(turns, a); }
    forall a | a in KeptAfter(turns) ensures a.verb !in {"INVITE", "CANCEL", "ACK"} && a.branch != "" {
      var i :| 0 <= i < |turns| && SentBy(turns, i, a);
      LastFinalIsNonInvite(turns[i].sent, a.verb, a.branch);
    }
  }
}
