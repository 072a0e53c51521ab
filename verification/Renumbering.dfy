/**
 * The change numbers a re-send gives the requests of a restored call
 * (crates/call/src/model/limiter.rs, crates/b2bua/src/router/resend.rs): each
 * above every one handed out, and one replacement of the set at most.
 */
module Renumbering {
  import opened CallModel
  import opened OffTurn
  import opened AnswerDeadline
  import opened Turns
  import opened Steps

  /** What numbering reads of a call's limiter: the last number handed out, the target's, and whether a set may be held. */
  datatype Limiter = Limiter(change: nat, target: nat, mayHold: bool)

  /** How many numbers sending `r` again reserves, none for what carries no number. */
  function Reserved(r: OffTurnRequest): nat {
    match r
    case Refer(_, _) => 0
    case ServiceHttp(_, _, _) => 0
    case Failure(_, _) => FAILURE_CHAIN
    case Release(_, _) => 1
    case Admit(_, _, _) => 1
  }

  function NumberOf(l: Limiter, r: OffTurnRequest): Resent {
    Resent(l.change + 1, l.mayHold, r.Admit? && l.target > r.change)
  }

  /** The limiter once `r` was numbered; a replacement sent again is the target from then on. */
  function NumberedOnce(l: Limiter, r: OffTurnRequest): Limiter {
    if NumberOf(l, r).superseded then l
    else if r.Admit? then l.(change := l.change + 1, target := if l.change + 1 < l.target then l.target else l.change + 1)
    else l.(change := l.change + Reserved(r))
  }

  function NumberedAfter(l: Limiter, rs: seq<OffTurnRequest>): Limiter {
    if rs == [] then l else NumberedOnce(NumberedAfter(l, rs[..|rs| - 1]), rs[|rs| - 1])
  }

  function Numbers(l: Limiter, rs: seq<OffTurnRequest>): map<OffTurnRequest, Resent> {
    if rs == [] then map[]
    else
      var front, last := rs[..|rs| - 1], rs[|rs| - 1];
      Numbers(l, front)[last := NumberOf(NumberedAfter(l, front), last)]
  }

  /** Number one request: its first number, and the limiter with what it reserved. */
  method NumberOne(limiter: Limiter, r: OffTurnRequest) returns (after: Limiter, number: Resent)
    ensures after == NumberedOnce(limiter, r) && number == NumberOf(limiter, r)
  {
    var superseded := r.Admit? && limiter.target > r.change;
    number := Resent(limiter.change + 1, limiter.mayHold, superseded);
    after := limiter;
    if !superseded {
      after := after.(change := after.change + Reserved(r));
      if r.Admit? && number.change >= after.target {
        after := after.(target := number.change);
      }
    }
  }

  /** Number the requests to send again, one after the other. */
  method NumberEach(limiter: Limiter, rs: seq<OffTurnRequest>) returns (after: Limiter, numbers: map<OffTurnRequest, Resent>)
    ensures after == NumberedAfter(limiter, rs) && numbers == Numbers(limiter, rs)
  {
    after, numbers := limiter, map[];
    for i := 0 to |rs|
      invariant after == NumberedAfter(limiter, rs[..i]) && numbers == Numbers(limiter, rs[..i])
    {
      assert rs[..i + 1][..i] == rs[..i];
      var number;
      after, number := NumberOne(after, rs[i]);
      numbers := numbers[rs[i] := number];
    }
    assert rs[..|rs|] == rs;
  }

  // ---- What the numbers are ---------------------------------------------

  /** A request is numbered on what the ones before it left. */
  lemma {:induction false} NumberedAt(l: Limiter, rs: seq<OffTurnRequest>, i: nat)
    requires Distinct(rs) && i < |rs|
    ensures Number(Numbers(l, rs), rs[i]) == NumberOf(NumberedAfter(l, rs[..i]), rs[i])
  {
    var front := rs[..|rs| - 1];
    if i < |front| {
      assert rs[i] != rs[|rs| - 1] by { assert !SameRequest(rs[i], rs[|rs| - 1]); }
      assert front[..i] == rs[..i];
      NumberedAt(l, front, i);
    }
  }

  /** Numbers are never handed back: the counter and the target only rise. */
  lemma {:induction false} CountsUp(l: Limiter, rs: seq<OffTurnRequest>, i: nat, j: nat)
    requires i <= j <= |rs|
    ensures NumberedAfter(l, rs[..i]).change <= NumberedAfter(l, rs[..j]).change
    ensures NumberedAfter(l, rs[..i]).target <= NumberedAfter(l, rs[..j]).target
    ensures NumberedAfter(l, rs[..j]).mayHold == NumberedAfter(l, rs[..i]).mayHold
    decreases j
  {
    if i < j {
      assert rs[..j][..j - 1] == rs[..j - 1];
      CountsUp(l, rs, i, j - 1);
    }
  }

  lemma {:induction false} StepsOnce(l: Limiter, rs: seq<OffTurnRequest>, i: nat)
    requires i < |rs|
    ensures NumberedAfter(l, rs[..i + 1]) == NumberedOnce(NumberedAfter(l, rs[..i]), rs[i])
  {
    assert rs[..i + 1][..i] == rs[..i];
  }

  /**
   * A request sent again takes a number above every one the call had handed
   * out, and the next one numbered takes one above all those it reserved.
   */
  lemma {:induction false} NumbersRise(l: Limiter, rs: seq<OffTurnRequest>, i: nat, j: nat)
    requires Distinct(rs) && i < j < |rs| && !Number(Numbers(l, rs), rs[i]).superseded
    ensures
      var first, second := Number(Numbers(l, rs), rs[i]), Number(Numbers(l, rs), rs[j]);
      var taken := if rs[i].Failure? then 6 else if rs[i].Release? || rs[i].Admit? then 1 else 0;
      l.change < first.change && first.change + taken <= second.change && first.mayHold == l.mayHold
  {
    NumberedAt(l, rs, i);
    NumberedAt(l, rs, j);
    CountsUp(l, rs, 0, i);
    StepsOnce(l, rs, i);
    CountsUp(l, rs, i + 1, j);
    assert rs[..0] == [];
  }

  lemma {:induction false} NumbersAreApart(l: Limiter, rs: seq<OffTurnRequest>)
    requires Distinct(rs)
    ensures NumberedApart(rs, Numbers(l, rs))
  {
    forall i, j | 0 <= i < j < |rs| && ((rs[i].Failure? && rs[j].Failure?) || (rs[i].Release? && rs[j].Release?))
      ensures Number(Numbers(l, rs), rs[i]).change != Number(Numbers(l, rs), rs[j]).change
    {
      NumberedAt(l, rs, i);
      NumbersRise(l, rs, i, j);
    }
  }

  /**
   * A re-send under the limiter's own numbers loses nothing: every request it
   * sends again is on the record as itself, save the admits superseded.
   */
  lemma {:induction false} RestoredAwaitsAll(b: AnswerBudgets, w: World, l: Limiter, only: set<OffTurnRequest>, late: seq<TimerOp>, nowMs: int,
                                             r: OffTurnRequest, numbers: map<OffTurnRequest, Resent>)
    requires w.call.state == Active && Distinct(w.call.awaited) && numbers == Numbers(l, Again(w.call.awaited, only))
    requires r in w.call.awaited && r in only && !(r.Admit? && Number(numbers, r).superseded)
    ensures exists x :: x in Next(b, w, Resend(only, numbers, late, nowMs)).call.awaited && IsAgain(r, Number(numbers, r), x, nowMs)
  {
    AgainSplits(w.call.awaited, only);
    AgainDistinct(w.call.awaited, only);
    NumbersAreApart(l, Again(w.call.awaited, only));
    ResentIsAwaited(b, w, only, numbers, late, nowMs);
  }

  // ---- Replacements -----------------------------------------------------

  /** Until a replacement is sent again the target stands. */
  lemma {:induction false} TargetStands(l: Limiter, rs: seq<OffTurnRequest>, i: nat)
    requires Distinct(rs) && i <= |rs|
    requires forall k :: 0 <= k < i && rs[k].Admit? ==> Number(Numbers(l, rs), rs[k]).superseded
    ensures NumberedAfter(l, rs[..i]).target == l.target
  {
    if i == 0 {
      assert rs[..0] == [];
    } else {
      TargetStands(l, rs, i - 1);
      NumberedAt(l, rs, i - 1);
      StepsOnce(l, rs, i - 1);
    }
  }

  /** A replacement sent again is the target, above every one the call had sent. */
  lemma {:induction false} SentIsTarget(l: Limiter, rs: seq<OffTurnRequest>, i: nat, j: nat)
    requires Distinct(rs) && i < j <= |rs| && rs[i].Admit? && !Number(Numbers(l, rs), rs[i]).superseded
    ensures NumberedAfter(l, rs[..j]).target > l.change
  {
    NumberedAt(l, rs, i);
    CountsUp(l, rs, 0, i);
    StepsOnce(l, rs, i);
    CountsUp(l, rs, i + 1, j);
    assert rs[..0] == [];
  }

  /**
   * Of the replacements awaited, all numbered by this call, at most one is sent
   * again: the first that no later change had replaced. Every other is answered
   * as superseded.
   */
  lemma {:induction false} OneReplacementAgain(l: Limiter, rs: seq<OffTurnRequest>, i: nat)
    requires Distinct(rs) && i < |rs| && rs[i].Admit? && rs[i].change <= l.change
    ensures !Number(Numbers(l, rs), rs[i]).superseded <==>
      && rs[i].change >= l.target
      && forall k :: 0 <= k < i && rs[k].Admit? ==> Number(Numbers(l, rs), rs[k]).superseded
  {
    NumberedAt(l, rs, i);
    if k :| 0 <= k < i && rs[k].Admit? && !Number(Numbers(l, rs), rs[k]).superseded {
      SentIsTarget(l, rs, k, i);
    } else {
      TargetStands(l, rs, i);
    }
  }
}
