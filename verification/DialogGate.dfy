/**
 * The dialog gate's reading of a request (crates/b2bua-core/src/dialog_gate.rs)
 * and the remote sequence number it carries from one request to the next
 * (section 12.2.2 of RFC 3261). Responses are not part of this model.
 */
module DialogGate {
  import opened Wrappers
  import opened Timers
  import opened Legs
  import opened CallModel

  datatype SipMethod =
    | INVITE | ACK | BYE | CANCEL | PRACK | OPTIONS | INFO | MESSAGE | NOTIFY
    | UPDATE | REFER | SUBSCRIBE | PUBLISH | Extension(name: string)

  datatype SipRequest = SipRequest(verb: SipMethod, toTag: Option<string>, fromTag: Option<string>, cseq: nat)

  /** What the gate reads of a call. */
  datatype GateView = GateView(aLeg: Leg, aInviteCseq: int, bLegs: seq<Leg>, timers: seq<TimerEntry>)

  ghost function ViewOf(call: Call): GateView
    reads call
  {
    GateView(call.aLeg, call.aInviteCseq, call.bLegs, call.timers)
  }

  datatype Verdict =
    | Pass(dialog: Option<DialogId>)
    | NoDialog
    | OutOfOrder
    | Absorbed(id: DialogId)
    | Ends(id: DialogId)
    | Drop
  {
    /** The response status a verdict stands for, if it is answered at all. */
    function Status(): Option<nat> {
      match this
      case NoDialog => Some(481)
      case OutOfOrder => Some(500)
      case Absorbed(_) => Some(200)
      case Ends(_) => Some(487)
      case _ => None
    }
  }

  datatype Admission = Through | Absorb | Terminate | Refuse

  // ---- Finding the dialog -----------------------------------------------

  /** The position of the first leg named `legId`, or the length. */
  function LegAt(legs: seq<Leg>, legId: string): (i: nat)
    ensures i <= |legs| && (i < |legs| ==> legs[i].legId == legId)
    ensures forall k :: 0 <= k < i ==> legs[k].legId != legId
  {
    if legs == [] || legs[0].legId == legId then 0 else 1 + LegAt(legs[1..], legId)
  }

  /** The position of the first dialog `id` names, or the length. */
  function DialogAt(ds: seq<Dialog>, id: DialogId): (i: nat)
    ensures i <= |ds| && (i < |ds| ==> ds[i].id == id)
    ensures forall k :: 0 <= k < i ==> ds[k].id != id
  {
    if ds == [] || ds[0].id == id then 0 else 1 + DialogAt(ds[1..], id)
  }

  function LegOf(v: GateView, legId: string): Option<Leg> {
    if v.aLeg.legId == legId then Some(v.aLeg)
    else if LegAt(v.bLegs, legId) < |v.bLegs| then Some(v.bLegs[LegAt(v.bLegs, legId)])
    else None
  }

  function ByTags(leg: Leg, id: DialogId): Option<Dialog> {
    if DialogAt(leg.dialogs, id) < |leg.dialogs| then Some(leg.dialogs[DialogAt(leg.dialogs, id)]) else None
  }

  // ---- The verdict ------------------------------------------------------

  /** What an ending dialog makes of a request (the method table). */
  function OnEnding(verb: SipMethod): Admission {
    match verb
    case BYE => Through
    case PRACK => Through
    case NOTIFY => Absorb
    case INFO => Absorb
    case MESSAGE => Absorb
    case OPTIONS => Absorb
    case _ => Terminate
  }

  function Admitting(dialog: Option<Dialog>, verb: SipMethod): Admission {
    if dialog.None? then Refuse
    else
      var d := dialog.value;
      if verb == ACK then (if d.IsLive() || d.WasEstablished() then Through else Refuse)
      else
        match d.state
        case Early => Through
        case Confirmed => Through
        case Ended(how) => if how.Rejected? && verb == PRACK then Through else Refuse
        case Ending(_) => OnEnding(verb)
        case Retired => if d.ReleaseInFlight() then OnEnding(verb) else Refuse
  }

  predicate AcksUnansweredCaller(v: GateView, legId: string, req: SipRequest) {
    req.verb == ACK && req.toTag.Some? && legId == v.aLeg.legId && req.cseq == v.aInviteCseq && v.aLeg.finalSent.None?
  }

  predicate HeldPossiblyConfirmed(timers: seq<TimerEntry>, tag: string) {
    exists i :: 0 <= i < |timers| && timers[i].key.timerType == PossiblyConfirmed(tag)
  }

  predicate AcksHeld(v: GateView, legId: string, req: SipRequest) {
    legId == v.aLeg.legId && req.cseq == v.aInviteCseq && req.toTag.Some? && HeldPossiblyConfirmed(v.timers, req.toTag.value)
  }

  /** Look the request's tags up on the leg, the local one taken from To. */
  function OfRequest(leg: Leg, req: SipRequest): Option<Dialog> {
    if req.toTag.Some? && req.fromTag.Some? then ByTags(leg, DialogId(req.toTag.value, req.fromTag.value)) else None
  }

  /** On a leg this side did not dial, drop a dialog neither shown nor established. */
  function Shown(leg: Leg, dialog: Option<Dialog>): Option<Dialog> {
    if dialog.Some? && !(leg.dialled.Some? || dialog.value.shown || dialog.value.WasEstablished()) then None else dialog
  }

  function RequestVerdict(v: GateView, legId: string, req: SipRequest): Verdict {
    if req.toTag.None? || req.verb == CANCEL then Pass(None)
    else
      var leg := LegOf(v, legId);
      if leg.None? then (if req.verb == ACK then Drop else NoDialog)
      else
        var dialog := Shown(leg.value, OfRequest(leg.value, req));
        var taken := Admitting(dialog, req.verb);
        if taken == Refuse then
          if req.verb != ACK then NoDialog
          else if AcksUnansweredCaller(v, legId, req) || AcksHeld(v, legId, req) then Pass(None)
          else Drop
        else if dialog.None? then NoDialog
        else if req.verb != ACK && dialog.value.peerCseq.Some? && req.cseq < dialog.value.peerCseq.value then OutOfOrder
        else if taken == Through then Pass(Some(dialog.value.id))
        else if taken == Absorb then Absorbed(dialog.value.id)
        else Ends(dialog.value.id)
  }

  /** `copyServed`: another owner served the call. */
  function GateVerdict(v: GateView, legId: string, req: SipRequest, copyServed: bool): Verdict {
    if AcksUnansweredCaller(v, legId, req) && !copyServed then Drop else RequestVerdict(v, legId, req)
  }

  // ---- The table --------------------------------------------------------

  /** The request is resolved to a dialog at all: it has a To-tag and is no CANCEL. */
  predicate Resolved(req: SipRequest) {
    req.toTag.Some? && req.verb != CANCEL
  }

  /** `leg` is the caller's leg, or else the first dialled one of that name. */
  ghost predicate IsLeg(v: GateView, legId: string, leg: Leg) {
    if v.aLeg.legId == legId then leg == v.aLeg else exists j :: FirstNamed(v.bLegs, j, legId) && v.bLegs[j] == leg
  }

  ghost predicate FirstNamed(legs: seq<Leg>, j: int, legId: string) {
    0 <= j < |legs| && legs[j].legId == legId && forall k :: 0 <= k < j ==> legs[k].legId != legId
  }

  /** The `i`th dialog is the first between the tag in the request's To, ours, and the one in its From, the peer's. */
  ghost predicate FirstBetween(ds: seq<Dialog>, i: int, req: SipRequest) {
    && 0 <= i < |ds| && req.toTag == Some(ds[i].id.ourTag) && req.fromTag == Some(ds[i].id.peerTag)
    && forall k :: 0 <= k < i ==> ds[k].id != ds[i].id
  }

  /** A 2xx established the dialog: it stands, or a BYE of either side ends or ended it. */
  predicate Established(d: Dialog) {
    match d.state
    case Early => false
    case Confirmed => true
    case Ending(request) => request == Bye
    case Ended(how) => how.PeerBye? || how.OurBye?
    case Retired => false
  }

  /** The dialog of `v` the request names, where the leg was dialled here, or the caller was shown the dialog or it was established. */
  ghost predicate Names(v: GateView, legId: string, req: SipRequest, d: Dialog) {
    exists leg, i ::
      IsLeg(v, legId, leg) && FirstBetween(leg.dialogs, i, req) && leg.dialogs[i] == d && (leg.dialled.Some? || d.shown || Established(d))
  }

  /** What the gate's lookup finds. */
  function Found(v: GateView, legId: string, req: SipRequest): Option<Dialog> {
    if LegOf(v, legId).None? then None else Shown(LegOf(v, legId).value, OfRequest(LegOf(v, legId).value, req))
  }

  /** The gate's lookup finds exactly the dialog the request names. */
  lemma {:induction false} LookupFinds(v: GateView, legId: string, req: SipRequest)
    ensures forall d :: Names(v, legId, req, d) <==> Found(v, legId, req) == Some(d)
  {
    LegIs(v, legId);
    if LegOf(v, legId).Some? {
      var leg := LegOf(v, legId).value;
      DialogIs(leg, req);
      if Found(v, legId, req).Some? {
        var d := Found(v, legId, req).value;
        var i := DialogAt(leg.dialogs, d.id);
        assert IsLeg(v, legId, leg) && FirstBetween(leg.dialogs, i, req) && leg.dialogs[i] == d;
      }
    }
  }

  lemma {:induction false} LegIs(v: GateView, legId: string)
    ensures forall leg :: IsLeg(v, legId, leg) <==> LegOf(v, legId) == Some(leg)
  {
    var at := LegAt(v.bLegs, legId);
    assert at < |v.bLegs| ==> FirstNamed(v.bLegs, at, legId);
  }

  lemma {:induction false} DialogIs(leg: Leg, req: SipRequest)
    ensures forall i :: FirstBetween(leg.dialogs, i, req) ==> OfRequest(leg, req) == Some(leg.dialogs[i])
    ensures OfRequest(leg, req).Some? ==>
      var i := DialogAt(leg.dialogs, OfRequest(leg, req).value.id);
      FirstBetween(leg.dialogs, i, req) && leg.dialogs[i] == OfRequest(leg, req).value
  {
  }

  predicate IsEnding(d: Dialog) {
    d.state.Ending? || (d.state.Retired? && d.ownByeOpen)
  }

  /** What the table lets a dialog take of a request other than an ACK. */
  predicate Takes(d: Dialog, verb: SipMethod) {
    d.state.Early? || d.state.Confirmed? || IsEnding(d) || (d.state.Ended? && d.state.how.Rejected? && verb == PRACK)
  }

  predicate Below(d: Dialog, req: SipRequest) {
    d.peerCseq.Some? && req.cseq < d.peerCseq.value
  }

  const REPORTS: set<SipMethod> := {INFO, MESSAGE, NOTIFY, OPTIONS}
  const CROSSING: set<SipMethod> := {BYE, PRACK}

  /** The ACK is one of the caller's INVITE. */
  predicate AcksCallersInvite(v: GateView, legId: string, req: SipRequest) {
    legId == v.aLeg.legId && req.cseq == v.aInviteCseq
  }

  /** A hold of the dialog the ACK's To-tag is of is armed. */
  ghost predicate HoldArmed(v: GateView, req: SipRequest) {
    exists e :: e in v.timers && e.key.timerType.PossiblyConfirmed? && req.toTag == Some(e.key.timerType.tag)
  }

  /** The dialog takes an ACK: it is no more than on its way to an end, or was established. */
  predicate TakesAck(d: Dialog) {
    d.state.Early? || d.state.Ending? || Established(d)
  }

  /** How a dialog admits a request other than an ACK, by the table. */
  lemma AdmittingTable(d: Option<Dialog>, verb: SipMethod)
    requires verb != ACK
    ensures Admitting(d, verb) == Refuse <==> d.None? || !Takes(d.value, verb)
    ensures Admitting(d, verb) == Absorb <==> d.Some? && IsEnding(d.value) && verb in REPORTS
    ensures Admitting(d, verb) == Terminate <==> d.Some? && IsEnding(d.value) && verb !in REPORTS + CROSSING
  {
  }

  /** The gate's answer by what its lookup finds. */
  lemma {:induction false} AnswerOnFound(v: GateView, legId: string, req: SipRequest, copyServed: bool)
    ensures
      var status, d := GateVerdict(v, legId, req, copyServed).Status(), Found(v, legId, req);
      && (status == Some(481) <==> Resolved(req) && req.verb != ACK && !(d.Some? && Takes(d.value, req.verb)))
      && (status == Some(500) <==> Resolved(req) && req.verb != ACK && d.Some? && Takes(d.value, req.verb) && Below(d.value, req))
      && (status == Some(200) <==> Resolved(req) && req.verb in REPORTS && d.Some? && IsEnding(d.value) && !Below(d.value, req))
      && (status == Some(487) <==>
            Resolved(req) && req.verb !in REPORTS + CROSSING + {ACK} && d.Some? && IsEnding(d.value) && !Below(d.value, req))
      && (req.verb == ACK ==> status == None)
  {
    if req.verb != ACK { AdmittingTable(Found(v, legId, req), req.verb); }
  }

  /**
   * The gate is its table: each answer exactly where the table puts it, 481
   * before 500, 500 before 200 and 487, and no ACK ever answered.
   */
  lemma {:induction false} VerdictIsTheTable(v: GateView, legId: string, req: SipRequest, copyServed: bool)
    ensures
      var answer := GateVerdict(v, legId, req, copyServed);
      && (answer.Status() == Some(481) <==>
            Resolved(req) && req.verb != ACK && !exists d :: Names(v, legId, req, d) && Takes(d, req.verb))
      && (answer.Status() == Some(500) <==>
            Resolved(req) && req.verb != ACK && exists d :: Names(v, legId, req, d) && Takes(d, req.verb) && Below(d, req))
      && (answer.Status() == Some(200) <==>
            Resolved(req) && req.verb in REPORTS && exists d :: Names(v, legId, req, d) && IsEnding(d) && !Below(d, req))
      && (answer.Status() == Some(487) <==>
            Resolved(req) && req.verb !in REPORTS + CROSSING + {ACK}
            && exists d :: Names(v, legId, req, d) && IsEnding(d) && !Below(d, req))
      && (req.verb == ACK ==> answer.Status() == None)
  {
    AnswerOnFound(v, legId, req, copyServed);
    LookupFinds(v, legId, req);
  }

  /**
   * What the gate takes in order it takes on the dialog the request names, and
   * on no other: exactly when the table lets that dialog take it at or above
   * its number. What names no dialog at all passes through.
   */
  lemma {:induction false} TakenInOrder(v: GateView, legId: string, req: SipRequest, copyServed: bool, id: DialogId)
    requires req.verb != ACK
    ensures
      var answer := GateVerdict(v, legId, req, copyServed);
      && (InOrder(answer) == Some(id) <==>
            Resolved(req) && exists d :: Names(v, legId, req, d) && d.id == id && Takes(d, req.verb) && !Below(d, req))
      && (answer == Pass(None) <==> !Resolved(req))
      && answer != Drop
  {
    AdmittingTable(Found(v, legId, req), req.verb);
    LookupFinds(v, legId, req);
  }

  /**
   * Exactly when an ACK gets through: on a dialog that takes it; of the caller's
   * INVITE while no final to it is on record, on a call another owner served; or
   * of a hold. One of an unanswered INVITE is dropped otherwise, whatever it names.
   */
  lemma {:induction false} AckVerdict(v: GateView, legId: string, req: SipRequest, copyServed: bool)
    requires req.verb == ACK && req.toTag.Some?
    ensures
      var answer := GateVerdict(v, legId, req, copyServed);
      var unanswered := AcksCallersInvite(v, legId, req) && v.aLeg.finalSent.None?;
      var taken := exists d :: Names(v, legId, req, d) && TakesAck(d);
      && (answer.Pass? || answer == Drop)
      && (answer.Pass? <==>
            (unanswered ==> copyServed) && (taken || unanswered || (AcksCallersInvite(v, legId, req) && HoldArmed(v, req))))
      && (forall id :: answer == Pass(Some(id)) ==> exists d :: Names(v, legId, req, d) && TakesAck(d) && d.id == id)
  {
    LookupFinds(v, legId, req);
    HeldIsArmed(v, req);
  }

  lemma {:induction false} HeldIsArmed(v: GateView, req: SipRequest)
    requires req.toTag.Some?
    ensures HeldPossiblyConfirmed(v.timers, req.toTag.value) <==> HoldArmed(v, req)
  {
    if HoldArmed(v, req) {
      var e :| e in v.timers && e.key.timerType.PossiblyConfirmed? && req.toTag == Some(e.key.timerType.tag);
      var i :| 0 <= i < |v.timers| && v.timers[i] == e;
    }
  }

  /** A dialog its caller was never shown and no 2xx established plays no part: only that one is named, and it is not. */
  lemma {:induction false} UnshownNamesNothing(v: GateView, legId: string, req: SipRequest, i: nat)
    requires v.aLeg.legId == legId && v.aLeg.dialled.None? && FirstBetween(v.aLeg.dialogs, i, req)
    requires !v.aLeg.dialogs[i].shown && !Established(v.aLeg.dialogs[i])
    ensures forall d :: !Names(v, legId, req, d)
    ensures RequestVerdict(v, legId, req) in {Pass(None), NoDialog, Drop}
    ensures Resolved(req) && req.verb != ACK ==> RequestVerdict(v, legId, req) == NoDialog
  {
    LookupFinds(v, legId, req);
    DialogIs(v.aLeg, req);
  }

  // ---- The remote sequence number ---------------------------------------

  /** The number after a request of `cseq` was taken in order. */
  function Later(last: Option<int>, cseq: int): Option<int> {
    if last.Some? && last.value > cseq then last else Some(cseq)
  }

  function AdvanceDialogs(ds: seq<Dialog>, id: DialogId, cseq: int): seq<Dialog> {
    var i := DialogAt(ds, id);
    if i == |ds| then ds else ds[i := ds[i].(peerCseq := Later(ds[i].peerCseq, cseq))]
  }

  function AdvanceLeg(leg: Leg, id: DialogId, cseq: int): Leg {
    leg.(dialogs := AdvanceDialogs(leg.dialogs, id, cseq))
  }

  function Advance(v: GateView, legId: string, id: DialogId, cseq: int): GateView {
    if v.aLeg.legId == legId then v.(aLeg := AdvanceLeg(v.aLeg, id, cseq))
    else
      var i := LegAt(v.bLegs, legId);
      if i == |v.bLegs| then v else v.(bLegs := v.bLegs[i := AdvanceLeg(v.bLegs[i], id, cseq)])
  }

  /** The dialog the gate took the request in order on, if any. */
  function InOrder(answer: Verdict): Option<DialogId> {
    match answer
    case Pass(dialog) => dialog
    case Absorbed(id) => Some(id)
    case Ends(id) => Some(id)
    case _ => None
  }

  function Noted(v: GateView, legId: string, dialog: Option<DialogId>, req: SipRequest): GateView {
    if dialog.None? || req.verb == ACK then v else Advance(v, legId, dialog.value, req.cseq)
  }

  /** Move the number of the dialog a verdict resolved; ACKs and unresolved requests move none. */
  method NoteInOrder(call: Call, legId: string, dialog: Option<DialogId>, req: SipRequest)
    modifies call`aLeg, call`bLegs
    ensures ViewOf(call) == Noted(old(ViewOf(call)), legId, dialog, req)
  {
    if dialog.None? || req.verb == ACK {
      return;
    }
    if call.aLeg.legId == legId {
      var ds := Advancing(call.aLeg.dialogs, dialog.value, req.cseq);
      call.aLeg := call.aLeg.(dialogs := ds);
    } else {
      var i := 0;
      while i < |call.bLegs| && call.bLegs[i].legId != legId
        invariant 0 <= i <= |call.bLegs| && call.bLegs == old(call.bLegs) && call.aLeg == old(call.aLeg)
        invariant forall k :: 0 <= k < i ==> call.bLegs[k].legId != legId
      {
        i := i + 1;
      }
      if i < |call.bLegs| {
        var ds := Advancing(call.bLegs[i].dialogs, dialog.value, req.cseq);
        call.bLegs := call.bLegs[i := call.bLegs[i].(dialogs := ds)];
      }
    }
  }

  method Advancing(ds: seq<Dialog>, id: DialogId, cseq: int) returns (r: seq<Dialog>)
    ensures r == AdvanceDialogs(ds, id, cseq)
  {
    var i := 0;
    while i < |ds| && ds[i].id != id
      invariant 0 <= i <= |ds|
      invariant forall k :: 0 <= k < i ==> ds[k].id != id
    {
      i := i + 1;
    }
    r := if i < |ds| then ds[i := ds[i].(peerCseq := Later(ds[i].peerCseq, cseq))] else ds;
  }

  // ---- Runs of the gate -------------------------------------------------

  function Lookup(v: GateView, legId: string, id: DialogId): Option<Dialog> {
    if LegOf(v, legId).None? then None else ByTags(LegOf(v, legId).value, id)
  }

  /** A request arrives, or the rules rewrite the call. */
  datatype Event =
    | Receive(legId: string, req: SipRequest, copyServed: bool)
    | Rewrite(after: GateView)

  function Next(v: GateView, e: Event): GateView {
    match e
    case Receive(legId, req, copyServed) => Noted(v, legId, InOrder(GateVerdict(v, legId, req, copyServed)), req)
    case Rewrite(after) => after
  }

  function Exec(v: GateView, es: seq<Event>): GateView {
    if es == [] then v else Next(Exec(v, es[..|es| - 1]), es[|es| - 1])
  }

  /** The rules are no writer of the dialog's remote number, and keep its record. */
  ghost predicate KeepsNumber(v: GateView, e: Event, legId: string, id: DialogId) {
    e.Rewrite? ==>
      && Lookup(e.after, legId, id).Some?
      && (Lookup(v, legId, id).Some? ==> Lookup(e.after, legId, id).value.peerCseq == Lookup(v, legId, id).value.peerCseq)
  }

  ghost predicate KeptThroughout(v: GateView, es: seq<Event>, legId: string, id: DialogId) {
    forall i :: 0 <= i < |es| ==> KeepsNumber(Exec(v, es[..i]), es[i], legId, id)
  }

  /** The request other than an ACK `e` has the gate take in order on the dialog. */
  predicate Accepts(v: GateView, e: Event, legId: string, id: DialogId) {
    e.Receive? && e.req.verb != ACK && e.legId == legId && InOrder(GateVerdict(v, legId, e.req, e.copyServed)) == Some(id)
  }

  /** The CSeqs the gate took in order on the dialog, oldest first. */
  function Accepted(v: GateView, es: seq<Event>, legId: string, id: DialogId): seq<int> {
    if es == [] then []
    else
      var front, e := es[..|es| - 1], es[|es| - 1];
      Accepted(v, front, legId, id) + (if Accepts(Exec(v, front), e, legId, id) then [e.req.cseq] else [])
  }

  lemma AdvanceOne(ds: seq<Dialog>, id: DialogId, cseq: int, other: DialogId)
    ensures
      var after := AdvanceDialogs(ds, id, cseq);
      && DialogAt(after, other) == DialogAt(ds, other)
      && (DialogAt(ds, other) < |ds| ==>
            after[DialogAt(ds, other)].peerCseq
              == if other == id then Later(ds[DialogAt(ds, other)].peerCseq, cseq) else ds[DialogAt(ds, other)].peerCseq)
  {
  }

  /** Noting a request moves the number of the dialog it was taken on, and of no other. */
  lemma {:induction false} AdvanceLookup(v: GateView, legId: string, id: DialogId, cseq: int, leg': string, id': DialogId)
    ensures
      var before, after := Lookup(v, leg', id'), Lookup(Advance(v, legId, id, cseq), leg', id');
      && (before.Some? <==> after.Some?)
      && (before.Some? ==>
            after.value.peerCseq
              == if leg' == legId && id' == id then Later(before.value.peerCseq, cseq) else before.value.peerCseq)
  {
    AdvanceKeepsLegs(v, legId, id, cseq, leg');
    if LegOf(v, leg').Some? {
      AdvanceOne(LegOf(v, leg').value.dialogs, id, cseq, id');
    }
  }

  lemma {:induction false} AdvanceKeepsLegs(v: GateView, legId: string, id: DialogId, cseq: int, leg': string)
    ensures
      var before, after := LegOf(v, leg'), LegOf(Advance(v, legId, id, cseq), leg');
      && (before.Some? <==> after.Some?)
      && (before.Some? ==> after.value == if leg' == legId then AdvanceLeg(before.value, id, cseq) else before.value)
  {
    var bs := Advance(v, legId, id, cseq).bLegs;
    assert |bs| == |v.bLegs| && forall k :: 0 <= k < |bs| ==> bs[k].legId == v.bLegs[k].legId;
    assert LegAt(bs, leg') == LegAt(v.bLegs, leg');
  }

  /** A request taken in order on a dialog names it, and is at or above its number. */
  lemma AcceptedIsInOrder(v: GateView, e: Event, legId: string, id: DialogId)
    requires Accepts(v, e, legId, id)
    ensures Lookup(v, legId, id).Some?
    ensures Lookup(v, legId, id).value.peerCseq.Some? ==> Lookup(v, legId, id).value.peerCseq.value <= e.req.cseq
  {
  }

  /** One step: the number follows what the gate takes in order, and nothing else moves it. */
  lemma {:induction false} NextNumber(v: GateView, e: Event, legId: string, id: DialogId)
    requires KeepsNumber(v, e, legId, id) && Lookup(v, legId, id).Some?
    ensures Lookup(Next(v, e), legId, id).Some?
    ensures Lookup(Next(v, e), legId, id).value.peerCseq
         == if Accepts(v, e, legId, id) then Some(e.req.cseq) else Lookup(v, legId, id).value.peerCseq
  {
    if e.Receive? {
      var taken := InOrder(GateVerdict(v, e.legId, e.req, e.copyServed));
      if taken.Some? { AdvanceLookup(v, e.legId, taken.value, e.req.cseq, legId, id); }
      if Accepts(v, e, legId, id) { AcceptedIsInOrder(v, e, legId, id); }
    }
  }

  /** `taken` never decreases from `first` on, and `last` is where it stands. */
  ghost predicate Climbs(taken: seq<int>, first: Option<int>, last: Option<int>) {
    && (forall i, j :: 0 <= i < j < |taken| ==> taken[i] <= taken[j])
    && (first.Some? ==> forall i :: 0 <= i < |taken| ==> first.value <= taken[i])
    && last == if taken == [] then first else Some(taken[|taken| - 1])
  }

  lemma ClimbsOn(taken: seq<int>, first: Option<int>, last: Option<int>, cseq: int)
    requires Climbs(taken, first, last) && (last.Some? ==> last.value <= cseq)
    ensures Climbs(taken + [cseq], first, Some(cseq))
  {
  }

  /**
   * Over every run of the gate, the CSeqs it takes in order on one dialog never
   * decrease, the first is at or above the number the dialog started with, and
   * the dialog's remote number is the last of them; a refused, dropped or ACK
   * message never moves it.
   */
  lemma {:induction false} NumbersNeverDecrease(v: GateView, es: seq<Event>, legId: string, id: DialogId)
    requires Lookup(v, legId, id).Some? && KeptThroughout(v, es, legId, id)
    ensures Lookup(Exec(v, es), legId, id).Some?
    ensures Climbs(Accepted(v, es, legId, id), Lookup(v, legId, id).value.peerCseq, Lookup(Exec(v, es), legId, id).value.peerCseq)
  {
    if es != [] {
      var front, e := es[..|es| - 1], es[|es| - 1];
      assert KeptThroughout(v, front, legId, id) by {
        forall i | 0 <= i < |front| ensures KeepsNumber(Exec(v, front[..i]), front[i], legId, id) {
          assert front[..i] == es[..i];
        }
      }
      NumbersNeverDecrease(v, front, legId, id);
      var before := Exec(v, front);
      assert KeepsNumber(before, e, legId, id);
      NextNumber(before, e, legId, id);
      var taken, first := Accepted(v, front, legId, id), Lookup(v, legId, id).value.peerCseq;
      if Accepts(before, e, legId, id) {
        AcceptedIsInOrder(before, e, legId, id);
        ClimbsOn(taken, first, Lookup(before, legId, id).value.peerCseq, e.req.cseq);
      } else {
        assert taken + [] == taken;
      }
    }
  }
}
