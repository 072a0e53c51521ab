/**
 * The dialogs and legs of a call (crates/call/src/model/dialog.rs, leg.rs,
 * leg_invite.rs) and the state a leg reads off them (leg_state.rs).
 */
module Legs {
  import opened Wrappers

  datatype EndingBy = Bye | Cancel

  datatype DialogEnd =
    | Rejected(status: nat)
    | PeerBye
    | EarlyPeerBye
    | OurBye(finalStatus: Option<nat>)

  datatype DialogState =
    | Early
    | Confirmed
    | Ending(request: EndingBy)
    | Ended(how: DialogEnd)
    | Retired

  datatype DialogId = DialogId(ourTag: string, peerTag: string)

  /** `ownByeOpen`: a BYE of this stack's own is among the dialog's open requests. */
  datatype Dialog = Dialog(
    id: DialogId,
    state: DialogState,
    peerCseq: Option<int>,
    shown: bool,
    ownByeOpen: bool)
  {
    predicate IsLive() { state.Early? || state.Confirmed? || state.Ending? }
    predicate IsConfirmed() { state == Confirmed || state == Ending(Bye) }
    predicate WasEstablished() {
      IsConfirmed() || (state.Ended? && (state.how.PeerBye? || state.how.OurBye?))
    }
    predicate ReleaseInFlight() { state.Retired? && ownByeOpen }
  }

  /** The INVITE this stack dialled a leg with. */
  datatype OutboundInvite = OutboundInvite(cseq: int, sentAtMs: int, finalReceived: Option<nat>, cancelSent: bool)

  /** `finalSent`: on a leg the peer dialled, the status its INVITE was answered with. */
  datatype Leg = Leg(
    legId: string,
    dialogs: seq<Dialog>,
    dialled: Option<OutboundInvite>,
    finalSent: Option<nat>,
    attempt: Option<nat>,
    rang: bool)
  {
    predicate CancelSent() { dialled.Some? && dialled.value.cancelSent }
    function InviteFinal(): Option<nat> {
      if dialled.Some? then dialled.value.finalReceived else finalSent
    }
    /** Some dialog of the leg is in a state a BYE leads to. */
    predicate ByeEnds() {
      exists i :: 0 <= i < |dialogs| && EndedByBye(dialogs[i].state)
    }
    predicate AnyDialog(s: DialogState) {
      exists i :: 0 <= i < |dialogs| && dialogs[i].state == s
    }
    function State(): LegState {
      if AnyDialog(Confirmed) then LegConfirmed
      else if ByeEnds() || CancelSent() || InviteFinal().Some? then LegTerminated
      else if AnyDialog(Early) then LegEarly
      else LegTrying
    }
    /** This stack's BYE on one of the leg's dialogs awaits its final. */
    predicate ByeSent() { AnyDialog(Ending(Bye)) }
    /** This stack's CANCEL awaits the INVITE's final. */
    predicate Cancelling() { InviteFinal().None? && CancelSent() }
  }

  datatype LegState = LegTrying | LegEarly | LegConfirmed | LegTerminated

  predicate EndedByBye(s: DialogState) {
    s == Ending(Bye) || (s.Ended? && !s.how.Rejected?)
  }

  /** The first leg of `legs` named `legId`. */
  function FindLeg(legs: seq<Leg>, legId: string): (r: Option<Leg>)
    ensures r.Some? ==> r.value in legs && r.value.legId == legId
    ensures r.None? <==> forall l :: l in legs ==> l.legId != legId
  {
    if legs == [] then None
    else if legs[0].legId == legId then Some(legs[0])
    else FindLeg(legs[1..], legId)
  }

  /** A BYE ends or ended the dialog, of whichever side, early or not. */
  predicate ByeOn(s: DialogState) {
    match s
    case Ending(request) => request == Bye
    case Ended(how) => how.PeerBye? || how.EarlyPeerBye? || how.OurBye?
    case _ => false
  }

  /** The leg is on its way out: a BYE ended or ends a dialog of it, its INVITE was cancelled or has its final. */
  ghost predicate OnItsWayOut(leg: Leg) {
    || (exists d :: d in leg.dialogs && ByeOn(d.state))
    || (leg.dialled.Some? && (leg.dialled.value.cancelSent || leg.dialled.value.finalReceived.Some?))
    || (leg.dialled.None? && leg.finalSent.Some?)
  }

  /** A leg's state, by its dialogs and its INVITE. */
  lemma {:induction false} LegStates(leg: Leg)
    ensures leg.State() == LegConfirmed <==> exists d :: d in leg.dialogs && d.state == Confirmed
    ensures leg.State() == LegTerminated <==> OnItsWayOut(leg) && forall d :: d in leg.dialogs ==> d.state != Confirmed
    ensures leg.State() == LegEarly <==>
      !OnItsWayOut(leg) && (forall d :: d in leg.dialogs ==> d.state != Confirmed) && exists d :: d in leg.dialogs && d.state == Early
    ensures leg.State() == LegTrying <==> !OnItsWayOut(leg) && forall d :: d in leg.dialogs ==> d.state != Confirmed && d.state != Early
  {
    AnyIsSome(leg, Confirmed);
    AnyIsSome(leg, Early);
    if leg.ByeEnds() {
      var i :| 0 <= i < |leg.dialogs| && EndedByBye(leg.dialogs[i].state);
      assert leg.dialogs[i] in leg.dialogs;
    }
  }

  lemma {:induction false} AnyIsSome(leg: Leg, s: DialogState)
    ensures leg.AnyDialog(s) <==> exists d :: d in leg.dialogs && d.state == s
  {
    if leg.AnyDialog(s) {
      var i :| 0 <= i < |leg.dialogs| && leg.dialogs[i].state == s;
      assert leg.dialogs[i] in leg.dialogs;
    }
  }
}
