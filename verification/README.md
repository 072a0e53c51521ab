# A verified model of the siprustserver call core and its repository gates

siprustserver is a SIP back-to-back user agent. A call is worked on one turn at
a time; the requests a turn sends elsewhere (adaptation HTTP, admission changes,
failure and release consults) are answered on later turns, or never. Beside the
server, the repository keeps Python gates that hold the code to rules about
dependencies, panic sites and file sizes.

This project models the parts of both that decide something and proves what they
promise. `dafny verify dfyconfig.toml` checks all of it.

| module | what it models |
|---|---|
| `Timers`, `CallModel`, `Legs` | the timer ledger with its generations, the timer driver, the mutable call and the effects of a turn, legs and dialogs |
| `OffTurn`, `AnswerDeadline`, `AnswerLemmas` | the record of awaited requests, the answer deadlines, and what arming and screening do to both |
| `Turns`, `Runs`, `LateAdmit`, `Landing` | the whole off-turn protocol as a transition system, its safety over every run, and the methods on the mutable call proved to be its steps |
| `Steps`, `Renumbering` | what one turn or re-send arms, records, cancels and sends, field by field, and the change numbers a re-send gives |
| `DialogGate` | which in-dialog request is passed, answered or dropped, and the remote sequence number |
| `RingDeadline` | ring deadlines inside the INVITE transaction's bound, at the first 18x and after a restore |
| `Attempts` | opening, refusing and settling routing attempts, and the timers scoped to them |
| `AnsweredFinals` | the non-INVITE finals kept for a copy of their request |
| `Purity` | the dependency-listing reader and the pure-crate reachability walk |
| `PanicSites`, `FileSize` | two ratchets and the `--update` of each |
| `Blank`, `TokenGrammar`, `LiteralGrammar` | the lexer that blanks comments and literal contents, and what its nested comments, strings, raw strings and char literals are |
| `Allowlist` | destination suffixes as label-wise domain matching |

State the source changes in place is a class here (`Call`, `HandlerEffects`,
`Graph`) whose methods are proved against functions on values; the laws are
lemmas about those functions. A run is a sequence of steps folded over a state,
so "over every run" quantifies over every sequence. Rules, messages, decision
answers and clocks are inputs of a step: anything they may do is covered unless a
predicate of the model (`Turns.Admissible`) says what they must leave alone.
A method that takes an invariant as given (one ledger entry per key, attempts
numbered by position) takes one every writer of the model is proved to keep.
Where the order of a Python set or sorted list only decides the order of a
report, the model takes any order. Results of `git`, `cargo` and clippy are
inputs.

## Where the code and its own text differ

The model follows the code.

- crates/b2bua-core/src/attempts.rs:17-18 says an attempt still open ends when
  another opens. crates/call/src/helpers/attempt.rs:20-54 keeps one with a live
  leg open. So "at most one attempt is open" is false (`Attempts.TwoMayBeOpen`);
  it holds after an opening exactly when no open attempt rings
  (`Attempts.OneOpenIffNoneRings`).
- crates/b2bua-core/src/dialog_gate.rs:26-27 lets an ACK pass on a dialog a 2xx
  established. Lines 179-185 also pass it on an early dialog and on one a CANCEL
  is ending.
- scripts/file-size.py:6-8 forbids a listed file to outgrow its budget. An
  update removes the entry of one that did while still within the limit, so the
  over-budget files are not the same before and after
  (`FileSize.UpdateMayRelieve`, and exactly when in `FileSize.OverAfterUpdate`).
- scripts/panic-sites.py:594-596 says an entry is removed at zero. One already
  listed at zero stays (`PanicSites.ZeroStays`, and exactly when one goes in
  `PanicSites.RemovedExactly`).
- crates/b2bua-core/src/destination_allowlist.rs:60-62 says a dotted suffix
  admits only true subdomains. The name `.a.b`, with an empty first label, is
  admitted by `.a.b` as well (`Allowlist.EmptyLabelIsBelow`).

## Model

| member | source | states |
|---|---|---|
| CallModel.Call.RetireTimers | crates/call/src/helpers/timer.rs:48-52 | the entries selected come off the ledger and are returned, both in ledger order |
| CallModel.Call.ArmTimer | crates/call/src/helpers/timer.rs:32-38 | the key's earlier instance is replaced by one under the next generation, last in the ledger |
| CallModel.ArmScheduled | crates/b2bua-core/src/timer_arm.rs:13-16 | ledger and driver are written together: the instance armed is the one scheduled |
| Timers.Partition | crates/call/src/helpers/timer.rs:48-52 | kept and taken split the ledger: each entry is in exactly the one its selection says |
| Timers.ArmValid | crates/call/src/helpers/timer.rs:32-38 | arming keeps one entry per key and generations rising in arming order under the counter |
| Timers.RetireValid | crates/call/src/helpers/timer.rs:48-52 | retiring keeps one entry per key and rising generations |
| OffTurn.Record | crates/b2bua-core/src/off_turn.rs:25-36 | each request sent replaces the same request on the record; a call that ended awaits nothing |
| OffTurn.Settle | crates/b2bua-core/src/off_turn.rs:91-155 | exactly the requests the event answers leave the record, the rest in order |
| OffTurn.RecordedAll | crates/b2bua-core/src/off_turn.rs:25-36 | every request of a turn is on the record it lands, whatever else the turn sends |
| OffTurn.RecordedFrom | crates/b2bua-core/src/off_turn.rs:25-78 | nothing is on the record but what was there or what the turn sent |
| OffTurn.RecordedDistinct | crates/b2bua-core/src/off_turn.rs:30-34 | no request is ever on the record twice under its own identity |
| AnswerDeadline.ArmAnswers | crates/b2bua-core/src/answer_deadline.rs:116-143 | every deadline of the turn's requests is armed and scheduled in order and each consult names its own; a call that ended arms nothing |
| AnswerDeadline.Screen | crates/b2bua-core/src/answer_deadline.rs:256-286 | the verdict, the ledger, the record and the one cancel an event leaves, for every event and call |
| AnswerDeadline.TimerScreen | crates/b2bua-core/src/rule_chain/timer_screen.rs:43-68 | a fire is delivered exactly while the ledger holds its key and generation and its scope lives as the call stands, and then takes its entry; else the call is untouched |
| AnswerLemmas.FireFates | crates/b2bua-core/src/rule_chain/timer_screen.rs:43-68 | each of the four fates of a fire, if and only if: delivered when its instance is held and its scope lives, scope ended when held and not, superseded when the key is held under another generation, disarmed when it is not held |
| AnswerLemmas.ImageDeadline | crates/b2bua-core/src/answer_deadline.rs:148-175 | the request an effect puts on the record has a deadline exactly when the effect arms one, under the same key |
| AnswerLemmas.LandingCovers | crates/b2bua-core/src/landing.rs:26-32 | landing keeps each awaited bounded request's deadline in the ledger |
| AnswerLemmas.SettledIsClosed | crates/b2bua-core/src/off_turn.rs:120-152 | an answer that settles a request closes that request's deadline, though admits are keyed by id and change and matched by id |
| AnswerLemmas.ClosedIsSettled | crates/b2bua-core/src/answer_deadline.rs:214-233 | an answer that closes a request's deadline settles that request |
| AnswerLemmas.SettlesWhatItCloses | crates/b2bua-core/src/off_turn.rs:91-155 | an answer or expiry about a deadline settles exactly the requests whose deadline it closes |
| AnswerLemmas.SettlesWithoutDeadline | crates/b2bua-core/src/off_turn.rs:120-152 | what every other event settles, by its topic: the REFER, or every consult of the kind where the fold names none |
| AnswerLemmas.AnotherCallsReport | crates/b2bua-core/src/answer_deadline.rs:288-292 | an event is another call's exactly when its topic and outcome carry an admit report and the report names another key |
| AnswerLemmas.ScreeningCovers | crates/b2bua-core/src/answer_deadline.rs:256-286 | screening an answer leaves every request still awaited its deadline |
| AnswerLemmas.ExpiryCovers | crates/b2bua-core/src/off_turn.rs:93-119 | an expiry leaves every request still awaited its deadline |
| AnswerLemmas.UnawaitedRemovesNothing | crates/b2bua-core/src/answer_deadline.rs:274-283 | of arbitrary events: an unawaited one takes no ledger entry, and takes no request if and only if it names no unbounded consult on the record or is another call's |
| AnswerLemmas.FoldNamesAsArmed | crates/b2bua/src/router/callouts.rs:219-230 | the fold of a landed consult closes exactly the deadline armed for it, and names none where its kind is unbounded |
| AnswerLemmas.UnawaitedMayDropAConsult | crates/b2bua-core/src/answer_deadline.rs:257-283 | that condition on arbitrary events is needed, at an event no fold of the router is |
| AnswerLemmas.RoundTrip | crates/b2bua-core/src/answer_deadline.rs:116-286 | send, land, answer, screen is the identity on ledger entries and record; only the generation counter moved |
| AnswerLemmas.AnswerOfTurnAwaited | crates/b2bua-core/src/answer_deadline.rs:116-286 | whatever else a turn sends, the answer to each of its bounded requests is awaited and clears exactly what it closes and settles |
| AnswerLemmas.ReenteredIsAwaited | crates/b2bua-core/src/answer_deadline.rs:170-172 | a service's answer that comes back by re-entry is always awaited |
| AnswerLemmas.ConsultNamesItsDeadline | crates/b2bua-core/src/answer_deadline.rs:120-141 | a consult's effect names a deadline exactly when one was armed for it this turn |
| AnswerLemmas.ExpiryIsItsAnswer | crates/b2bua-core/src/answer_deadline.rs:260-330 | an expiry reads as an answer to its own deadline and of this call; only a release's reads as itself; a failure's carries the failed leg |
| AnswerLemmas.ExpiryTells | crates/b2bua-core/src/answer_deadline.rs:260-330 | the lost answer in full, topic, outcome and payload: an HTTP error, an unavailable admit, a rejected failure consult, and none for a release |
| AnswerLemmas.ChainAnswersInTime | crates/b2bua-core/src/answer_deadline.rs:45-63 | a failover chain of at most `FAILURE_CHAIN` rounds within their bounds ends the margin before its deadline, and a release's one round too; where the clock's range cuts the margin it still never ends after it |
| AnswerLemmas.GivenUpAt | crates/b2bua-core/src/answer_deadline.rs:116-143 | a deadline fires its budget and two seconds after the sending turn, or at the end of the clock's range |
| AnswerLemmas.BudgetIsTight | crates/b2bua-core/src/answer_deadline.rs:45-63 | some chain of six rounds within its bounds takes all of the failure budget, and its first round all of the release budget |
| Steps.SentIsTimed | crates/b2bua-core/src/answer_deadline.rs:116-175 | after any turn on a call that lives on, each request sent, no later one of the turn taking its key, is guarded by a newly armed entry whose instant is the sending one plus its own timeout, the HTTP, admit or consult budget, or nothing for a re-entered answer, and the margin |
| Steps.ConsultAnswersInTime | crates/b2bua-core/src/answer_deadline.rs:45-143 | the entry armed for a consult comes no earlier than the end of any chain within its bounds, and the margin after it |
| Steps.SentIsAwaited | crates/b2bua-core/src/off_turn.rs:25-36 | after any turn on a call that lives on, each request sent is on the record |
| Steps.EndedOwesNothing | crates/b2bua-core/src/rules/invariants.rs:84-122 | a call that ended has no timer and no awaited request, and the driver holds nothing it held before |
| Steps.RetiredLeavesTheDriver | crates/call/src/helpers/timer.rs:48-52 | what a rule retires is gone from the driver, whatever the driver held |
| Steps.AnsweredLeavesTheDriver | crates/b2bua-core/src/answer_deadline.rs:280-285 | an awaited answer closes every deadline it answers and takes the last of them from the driver |
| Turns.TurnKeeps | crates/b2bua-core/src/landing.rs:26-36 | the rules and the landing of any turn keep the ledger's form, the coverage of the record and the driver's agreement |
| Turns.CloseFollows | crates/b2bua-core/src/answer_deadline.rs:280-285 | one answer may close several deadlines and cancel only one timer, and the driver still holds every entry left |
| Turns.FireFollows | crates/b2bua-core/src/rule_chain/timer_screen.rs:43-68 | whatever a fire meets, every entry the ledger keeps is in the driver, on the way, or dropped with its ended scope |
| Turns.ResendKeeps | crates/b2bua/src/router/resend.rs:66-99 | sending awaited requests again keeps the invariant |
| Turns.ExecKeeps | crates/b2bua-core/src/rule_chain/mod.rs:119-137 | over every run: ledger form, one identity per awaited request, deadline coverage, each entry in the driver under its generation or excused, and no generation in the driver or on its way the ledger has not handed out |
| Runs.AwaitedIsGiven | crates/b2bua-core/src/answer_deadline.rs:274-285 | an answer is `Awaited` exactly when some deadline gives the rules its event |
| Runs.GivenIsGone | crates/b2bua-core/src/answer_deadline.rs:256-286 | a deadline whose event the rules were given is off the ledger after the turn |
| Runs.AtMostOneEvent | crates/b2bua-core/src/answer_deadline.rs:256-286 | over every run, whatever is repeated, reordered or late, an armed deadline gives the rules at most one event |
| Runs.AwaitedIsGuarded | crates/b2bua-core/src/answer_deadline.rs:116-143 | in every reachable world each awaited bounded request has its deadline in the ledger and in the driver or on its way |
| Runs.UnawaitedThroughout | crates/b2bua-core/src/answer_deadline.rs:256-286 | in every reachable world, of arbitrary events: an unawaited one takes nothing unless it names an unbounded consult |
| Runs.UnawaitedTakesNothing | crates/b2bua-core/src/answer_deadline.rs:274-283 | in every reachable world an unawaited answer removes nothing, for every event the router makes under the budgets in force |
| Runs.DriverOnlyIsScreenedOut | crates/b2bua-core/src/rule_chain/timer_screen.rs:43-68 | over every run, a timer in the driver or on its way whose instance the ledger lacks changes neither call nor driver when it fires, then or after any further run |
| Runs.OnlyAdmitsRepeat | crates/b2bua-core/src/answer_deadline.rs:214-233 | only an admit can have two deadlines one answer closes |
| Runs.LateAnswerReachesNoRule | crates/b2bua-core/src/rule_chain/mod.rs:123-137 | after a deadline expired its answer reaches no rule, after any further run that sends nothing it would answer |
| Runs.RepeatedAnswerReachesNoRule | crates/b2bua-core/src/rule_chain/mod.rs:123-137 | after the rules read an answer every repeat of it reaches no rule, after any further run that sends nothing it would answer |
| Runs.ClosedStaysClosed | crates/b2bua-core/src/rule_chain/mod.rs:123-137 | from any point where no pending deadline is one an answer closes, it reaches no rule until something it answers is sent |
| Runs.LateVerdict | crates/b2bua-core/src/answer_deadline.rs:274-285 | an answer is `Unawaited` if and only if it is another call's or closes no pending deadline |
| LateAdmit.LateAdmitMayBeAwaited | crates/b2bua-core/src/answer_deadline.rs:214-233 | for every new call, budgets, id and two change numbers there is a run that sends the admit as both and expires the first, after which the late answer to the first is awaited |
| Runs.NoDeadlineIsLost | crates/b2bua-core/src/answer_deadline.rs:116-286 | a deadline leaves the ledger of a live call only by giving its event, by being armed again later, or by its request being sent again |
| Landing.Land | crates/b2bua-core/src/landing.rs:26-62 | the landing pass: deadlines, then the requests, then the finals, as values |
| Landing.NamingKeepsImages | crates/b2bua-core/src/landing.rs:29-32 | naming deadlines on effects changes no request the record then takes |
| Landing.RunTurn | crates/b2bua-core/src/rules/invariants.rs:84-122 | rules, terminal funnel and landing on the mutable call are the turn of the transition system |
| Landing.ReadEvent | crates/b2bua/src/router/process.rs:160-168 | the two screens on the mutable call are the reading step of the transition system |
| Landing.EndedScopeMayEnd | crates/call/src/helpers/timer_scope.rs:14-27 | only a scope the transition system lets end is found ended by a fire |
| Landing.DeliverEvent | crates/b2bua-core/src/rule_chain/mod.rs:119-137 | delivering any event refines the transition system: same record, same driver, the rules kept from an unawaited answer |
| Landing.ResendAwaited | crates/b2bua/src/router/resend.rs:66-187 | the re-send turn refines the transition system: same record, same driver; what it sends is `Steps.ResendSendsEach` and `Steps.ResentIsAwaited` |
| Steps.ResendSendsEach | crates/b2bua/src/router/resend.rs:125-187 | the effects of a re-send are one per awaited request asked for, in order: same kind and payload under the new number, or for a superseded admit the answer naming its id, change and limiter key; and nothing else |
| Steps.ResentIsAwaited | crates/b2bua/src/router/resend.rs:66-187 | after a re-send that numbers consults of one kind apart, each request sent again is on the record as itself under its new number, field by field |
| Steps.NothingElseIsAwaited | crates/b2bua/src/router/resend.rs:73-99 | nothing is on the record after a re-send but what it left alone and what it sent again |
| Steps.ImageSentIsTheEffect | crates/b2bua-core/src/off_turn.rs:40-78 | recording an effect and sending what was recorded gives the effect back, every kind and field |
| Renumbering.NumberEach | crates/call/src/model/limiter.rs:355-371 | the requests sent again are numbered one after the other, as the fold of the limiter's counter and target over them |
| Renumbering.NumbersRise | crates/call/src/model/limiter.rs:355-371 | a request sent again takes a number above every one handed out, and the next one a number above all it reserved |
| Renumbering.RestoredAwaitsAll | crates/b2bua/src/router/resend.rs:66-187 | under the limiter's own numbers, which are apart, a re-send leaves every request it was asked for on the record as itself, a superseded admit aside |
| Renumbering.OneReplacementAgain | crates/b2bua/src/router/resend.rs:156-184 | of the admits awaited at most one is sent again, the first that no later change replaced, and every other is answered as superseded |
| DialogGate.LookupFinds | crates/b2bua-core/src/dialog_gate.rs:116-125 | the lookup finds exactly the first dialog of the leg whose own tag is the To-tag and peer tag the From-tag, the leg dialled here or the dialog shown or established |
| DialogGate.VerdictIsTheTable | crates/b2bua-core/src/dialog_gate.rs:8-37 | 481, 500, 200 and 487 each exactly where the table puts them, in that precedence, for the dialog the tags name on the leg; no ACK is ever answered |
| DialogGate.TakenInOrder | crates/b2bua-core/src/dialog_gate.rs:110-145 | a request other than an ACK is taken on a dialog exactly when it names it, the table lets it and its CSeq is not below; only what names no dialog at all passes unresolved |
| DialogGate.AckVerdict | crates/b2bua-core/src/dialog_gate.rs:92-145 | an ACK passes exactly on a live or once established dialog or as evidence, and is dropped otherwise |
| DialogGate.UnshownNamesNothing | crates/b2bua-core/src/dialog_gate.rs:119-125 | where the first dialog between the tags was neither shown nor established none is named, and a request other than an ACK is refused |
| DialogGate.NoteInOrder | crates/b2bua-core/src/dialog_gate.rs:150-159 | the named dialog's number moves to the CSeq unless it stands higher, and nothing else of the call changes |
| DialogGate.AdvanceLookup | crates/call/src/helpers/dialog.rs:25-29 | advancing one dialog's number changes no other dialog's, on any leg |
| DialogGate.NextNumber | crates/b2bua-core/src/dialog_gate.rs:147-159 | one message sets a dialog's number exactly when the gate takes it in order there |
| DialogGate.NumbersNeverDecrease | crates/b2bua-core/src/dialog_gate.rs:110-159 | over every run the CSeqs taken on one dialog never decrease and its number is the last of them (section 12.2.2 of RFC 3261) |
| RingDeadline.ArmAtFirst18x | crates/b2bua-core/src/ring_deadline.rs:27-55 | the ledger and the schedule the first 18x leaves, with every case that arms nothing |
| RingDeadline.ArmUnrungAfterRestore | crates/b2bua-core/src/ring_deadline.rs:65-87 | a restore arms exactly the unrung legs, from their INVITE |
| Legs.LegStates | crates/call/src/model/leg_state.rs:72-168 | each of a leg's four states, if and only if, by the states of its dialogs, its final and its CANCEL |
| RingDeadline.RungExactly | crates/b2bua-core/src/ring_deadline.rs:27-55 | an 18x arms exactly the present plus the attempt's deadline, cut to the bound, and exactly on an unrung ringing leg whose INVITE it answers |
| RingDeadline.RestoredExactly | crates/b2bua-core/src/ring_deadline.rs:65-87 | a restore arms exactly the INVITE's instant plus the attempt's deadline, cut to the bound, and exactly on an unrung ringing leg with none armed |
| RingDeadline.HeldExactly | crates/b2bua-sdk/src/config.rs:498-501 | under a validated bound no saturation shows: the held instant is the wanted one or the bound less the margin |
| RingDeadline.ArmedInsideTheBound | crates/b2bua-core/src/ring_deadline.rs:101-105 | a ring deadline from either path leaves the CANCEL its margin inside the INVITE's transaction |
| RingDeadline.RingingHasNoFinal | crates/b2bua-core/src/ring_deadline.rs:69-74 | the restore's own test for a final or a CANCEL is implied by the leg still ringing |
| RingDeadline.RestoreIsIdempotent | crates/b2bua-core/src/ring_deadline.rs:65-87 | restoring twice is restoring once, for every call |
| RingDeadline.RestoreThenRing | crates/b2bua-core/src/ring_deadline.rs:27-87 | for any ledger, legs and instants, a first 18x that arms a deadline leaves the leg that one deadline whether a restore came before or not |
| RingDeadline.RestoredIsNoLater | crates/b2bua-core/src/ring_deadline.rs:57-87 | a restored leg's deadline is armed, and never comes after the one its first 18x then gives it |
| Attempts.RetireAttempt | crates/b2bua-core/src/attempts.rs:43-47 | an attempt's timers leave the ledger, each with its cancel |
| Attempts.DecideOpen | crates/call/src/helpers/attempt.rs:25-120 | each open attempt takes the outcome its legs and the moment decide, and those ended are returned in order |
| Attempts.SettleOpen | crates/b2bua-core/src/rules/lifecycle_delivery.rs:71-73 | attempts, ledger and cancels once the open attempts were decided |
| Attempts.Open | crates/b2bua-core/src/attempts.rs:19-26 | opening settles the others first and adds one open attempt under the next number |
| Attempts.OpenedAppends | crates/b2bua-core/src/attempts.rs:19-26 | the attempt added has the given cause and deadline and no leg, under the next number, and is told as opened |
| Attempts.Refuse | crates/b2bua-core/src/attempts.rs:30-40 | a refused route is an attempt that is never open afterwards |
| Attempts.RefusedInOrder | crates/b2bua-core/src/attempts.rs:28-75 | the refused routes stand at the end in order, each with its cause and its own deadline |
| Attempts.RecordRefusedRoutes | crates/b2bua-core/src/attempts.rs:53-75 | a fold records each refused route under its cause, and nothing on a call going away or for another topic |
| Attempts.SweepEndedScopes | crates/b2bua-core/src/rules/lifecycle_delivery.rs:78-89 | every timer whose scope ended leaves the ledger, each with its cancel |
| Attempts.SweepLeavesTheLiving | crates/call/src/helpers/timer_scope.rs:14-27 | after the sweep exactly the timers whose attempt, leg and service machine still live are left, whatever was armed |
| Attempts.LivingScopes | crates/call/src/helpers/timer_scope.rs:14-27 | which timers live, scope by scope: an open attempt's, a leg's not terminated, a running service's, and every other |
| Attempts.GoneIsCancelled | crates/b2bua-core/src/attempts.rs:42-51 | every timer a decision or a sweep takes off the ledger is cancelled |
| Attempts.OutcomesTellOfLegs | crates/call/src/helpers/attempt.rs:20-140 | how an attempt ends follows from its legs: never dialled, refused everywhere, answered, or still ringing |
| Attempts.OutcomesExactly | crates/call/src/helpers/attempt.rs:20-140 | every outcome of either moment, if and only if, by which of the attempt's legs stand, were answered with a 2xx, or have nothing of theirs outstanding |
| Attempts.NoTimerOutlivesItsAttempt | crates/b2bua-core/src/attempts.rs:17-75 | at every point of a run that arms under open attempts, attempts keep their numbers and outcomes and no timer is scoped to an ended one |
| Attempts.SweptRunIsSound | crates/b2bua-core/src/rules/lifecycle_delivery.rs:71-90 | after any run of writes that ends in the closing sweep, whatever was armed, the same holds |
| Attempts.OneOpenIffNoneRings | crates/call/src/helpers/attempt.rs:20-54 | opening leaves at most one attempt open if and only if no open attempt rings |
| Attempts.TwoMayBeOpen | crates/call/src/helpers/attempt.rs:20-54 | two attempts can be open: the one ringing and the new one |
| Attempts.AtMostOneThroughout | crates/b2bua-core/src/attempts.rs:19-75 | at most one attempt is open throughout a run if and only if at most one was at its start and every opening finds none ringing |
| Attempts.FoldGains | crates/b2bua-core/src/attempts.rs:53-75 | a fold adds one refused attempt per route, in order, each with its own deadline, under `Failover` for a failure and `Reroute` for a release; none to a call going away or for another topic |
| AnsweredFinals.Retain | crates/b2bua-core/src/answered_finals.rs:16-43 | the finals kept after a turn: those not past Timer J, each replaced by a later final of its transaction; none once the call ended |
| AnsweredFinals.LastFinalIs | crates/b2bua-core/src/answered_finals.rs:23-41 | the final a turn leaves for a transaction is the last of its final responses through a server transaction, byte for byte, and none where it sent none |
| AnsweredFinals.KeptIsCurrent | crates/b2bua-core/src/answered_finals.rs:16-43 | after any turns a final is kept if and only if it is its transaction's last and no turn since passed its Timer J or ended the call |
| AnsweredFinals.KeptFinals | crates/b2bua-core/src/answered_finals.rs:13-43 | the kept finals are a map from transactions, of no INVITE, CANCEL or ACK, empty once the call ended (section 17.2.2 of RFC 3261) |
| Purity.Graph.Add | scripts/purity.py:243-253 | reading rows into the graph is the fold of the row reader over them |
| Purity.ListingReadsBack | scripts/purity.py:236-253 | reading a tree's depth-prefixed preorder adds exactly its nodes, local crates and parent-child edges |
| Purity.ListingsReadBack | scripts/purity.py:256-262 | several listings read into one graph give their union |
| Purity.Walk | scripts/purity.py:269-286 | one root's walk ends, and finds exactly the forbidden and the allowed crates at the end of paths through allowed third-party ones |
| Purity.PureRule | scripts/purity.py:265-287 | the breaches are exactly the forbidden crates some pure crate reaches so, each with a real path; the names used exactly the allowed ones reached |
| Purity.NoBreachIsClean | scripts/purity.py:265-287 | no breach is reported if and only if no such path ends in a forbidden crate |
| Purity.CleanCoversTheClosure | scripts/purity.py:265-287 | a clean rule covers the whole closure though no walk enters a local crate: any path from a pure crate meets only pure local crates and allowed ones |
| PanicSites.Totalled | scripts/panic-sites.py:178-188 | the total of an allowlist is the sum over its entries in any order |
| PanicSites.SitesOf | scripts/panic-sites.py:365-378 | each file's count is the number of its findings, of those wholly on moved lines when moved lines are known |
| PanicSites.SitesAreFindings | scripts/panic-sites.py:365-378 | that number is the size of the set of such findings |
| PanicSites.Carried | scripts/panic-sites.py:381-391 | moved sites carry budget all together exactly when the files they left have fallen by as much, else none |
| PanicSites.EntryMayStand | scripts/panic-sites.py:168-202 | what an entry may stand at, renames included: its budget at the base, or the one of the path it came from where that entry is gone, and with the list not risen its moved and revealed sites |
| PanicSites.AgainstBase | scripts/panic-sites.py:178-202 | reported are exactly the entries above their base count that the total, the moved and the revealed sites do not cover |
| PanicSites.RenamesCarry | scripts/panic-sites.py:593-610 | each budget goes, whole, to the path its file was renamed to where that is unlisted and counted, else stays; no other path gets one |
| PanicSites.Updated | scripts/panic-sites.py:593-627 | every entry of the crates updated ends at its count held to its budget or what its sites carry; others keep theirs |
| PanicSites.UpdatedExactly | scripts/panic-sites.py:593-627 | each file's number after an update, renames included: its count held to the larger of its budget and what base, moved and revealed sites allow, in the crates updated; its budget elsewhere |
| PanicSites.UpdatePassesIff | scripts/panic-sites.py:178-202 | without renames the updated list passes its own gate if and only if each budget it keeps is within what its file's sites carry, and then the list outgrows its base by at most the revealed sites |
| PanicSites.UpdateKeepsPassing | scripts/panic-sites.py:593-627 | a list that passes the base check still passes once updated, moved sites being paid for by the files they left |
| PanicSites.UpdateDoesNotRepair | scripts/panic-sites.py:593-627 | a list that fails the check may fail it after the update |
| PanicSites.UpdateSettles | scripts/panic-sites.py:412-420 | an update leaves no stale entry; without renames a second one changes nothing; what stays over budget is exact |
| PanicSites.RemovedExactly | scripts/panic-sites.py:615-626 | an update removes an entry if and only if its file wants none and the entry is not zero already |
| PanicSites.ZeroStays | scripts/panic-sites.py:615-626 | an entry listed at zero is still listed after any update |
| Blank.BlankText | scripts/panic_sites_attrs.py:35-81 | the in-place lexer ends on every text and yields exactly the token-by-token blanking of an independent tokenisation |
| Blank.TokensAreTheText | scripts/panic_sites_attrs.py:45-81 | the tokens put together are the text, whole and in order |
| Blank.BlankedExactly | scripts/panic_sites_attrs.py:35-37 | length and newlines are kept and exactly the other characters in a comment or inside a literal become spaces |
| TokenGrammar.BlockTokenIsNested | scripts/panic_sites_attrs.py:51-63 | a block comment token is the one tree of nested comments the text starts with, tree and length both unique, or the rest of the text when there is none |
| TokenGrammar.NestedReadsBack | scripts/panic_sites_attrs.py:51-63 | any tree of nested comments whose delimiters stand apart is read back whole, whatever follows |
| TokenGrammar.StringEndsAtBareQuote | scripts/panic_sites_attrs.py:70-75 | a string ends at the first quote an even run of backslashes precedes, and at none before |
| Blank.RawLengthIsFirst | scripts/panic_sites_attrs.py:64-69 | a raw string ends at the first quote followed by its hashes, and at none before |
| LiteralGrammar.CharLiterals | scripts/panic_sites_attrs.py:18-18 | a char literal is taken if and only if one stands there: a character other than quote, backslash and newline, an escape of one, `\x` and two hex digits, or `\u{}` around one to six; and whole |
| LiteralGrammar.RawOpenings | scripts/panic_sites_attrs.py:17-17 | a raw string opens if and only if `r` stands there, `b` or `c` before it or neither, with any hashes and a quote; and whole |
| LiteralGrammar.TokenKinds | scripts/panic_sites_attrs.py:46-81 | which kind of token comes first, each if and only if, by the text and the character before |
| LiteralGrammar.LineParts | scripts/panic_sites_attrs.py:46-50 | a line comment runs to its newline, not over it, or to the end of the text |
| LiteralGrammar.RawOpens | scripts/panic_sites_attrs.py:64-69 | a raw token starts with an opening, whole |
| LiteralGrammar.RawParts | scripts/panic_sites_attrs.py:64-69 | nothing inside a raw string closes it, and it is closed by a quote and its own number of hashes or by the end of the text |
| LiteralGrammar.StringParts | scripts/panic_sites_attrs.py:70-75 | every quote inside a string is escaped, and it ends at one that is not or with the text |
| LiteralGrammar.CharParts | scripts/panic_sites_attrs.py:76-78 | the content of a char token is that of the literal standing there |
| LiteralGrammar.MaskIsContent | scripts/panic_sites_attrs.py:35-81 | of each token exactly the comment, or what lies between opening and closing, is blanked |
| FileSize.Load | scripts/file-size.py:68-92 | the entries are read exactly when no path is listed twice |
| FileSize.OverBudget | scripts/file-size.py:140-148 | reported are exactly the scanned files above their own budget |
| FileSize.OverByKind | scripts/file-size.py:104-110 | a file is held to its entry, else to the limit of test files if it is one, else to that of the others |
| FileSize.Update | scripts/file-size.py:270-297 | the file left is the line-by-line update, and is untouched when no line changed |
| FileSize.UpdateOne | scripts/file-size.py:274-293 | one line moved with its rename, removed, lowered or kept with its note |
| FileSize.NotesFollow | scripts/file-size.py:274-293 | an entry left under its own path keeps its note, and one that moved has none |
| FileSize.NoEntryStale | scripts/file-size.py:151-161 | an update leaves no stale entry, for every list, tree and renames |
| FileSize.NoPathTwice | scripts/file-size.py:270-293 | an update lists no path twice |
| FileSize.NeverRaises | scripts/file-size.py:36-38 | every entry left was there, under its path or the one its file was renamed to, at no lower budget |
| FileSize.OthersKept | scripts/file-size.py:274-293 | settings and comments are kept, in order |
| FileSize.UpdateSettles | scripts/file-size.py:270-297 | a second update changes nothing |
| FileSize.OverAfterUpdate | scripts/file-size.py:140-161 | no file comes to be over budget; those that cease to be are exactly the listed ones within the limit and the renamed ones their old entry covers |
| FileSize.UpdateMayRelieve | scripts/file-size.py:270-293 | without renames the over-budget files may still change |
| FileSize.AgainstBase | scripts/file-size.py:205-225 | reported against the base are exactly the entries it does not allow, and none without a base |
| FileSize.UpdateKeepsTight | scripts/file-size.py:205-225 | an allowlist whose entries pass the check against the base still passes once updated |
| Allowlist.BoundaryIsLabels | crates/b2bua-core/src/destination_allowlist.rs:58-65 | a name ends with a dot and a suffix exactly when its labels properly end with the suffix's |
| Allowlist.AllowedByLabels | crates/b2bua-core/src/destination_allowlist.rs:66-86 | a host is allowed exactly when the list has `*`, a dotless entry whose labels end the host's, or a dotted one whose other labels properly do |
| Allowlist.EmptyLabelIsBelow | crates/b2bua-core/src/destination_allowlist.rs:76-77 | the name `.a.b` is admitted by the entry `.a.b`, and `a.b` is not |
| Allowlist.CaseIgnored | crates/b2bua-core/src/destination_allowlist.rs:66-67 | hosts that differ in letter case alone are treated alike |
| Allowlist.LowerForgetsCase | crates/b2bua-core/src/destination_allowlist.rs:66-67 | two names have one lowered form exactly when they have the same letters, position by position, case aside |
| Allowlist.CaseNeverMatters | crates/b2bua-core/src/destination_allowlist.rs:66-77 | letter case matters neither in the host nor in any entry of the list |
| Allowlist.RejectedExactly | crates/b2bua-core/src/destination_allowlist.rs:96-104 | rejected is exactly a host that is no IP literal and that no entry admits by its labels |

## Left out

- Parsing of SIP, SDP, JSON payloads and allowlist text: a message is its method, tags, CSeq, status and branch; a payload the fields the core reads; an allowlist line an entry with its note or anything else.
- The response side of the dialog gate and the signed via-extension.
- The rule engine itself: what a turn's rules do, and what the framework does of an event they do not read (the message cap, the turn's close), are arbitrary timer writes, requests and state, under `Turns.Admissible` (answer deadlines are armed and retired by the core alone, as ADR-0039 of the repository has it).
- Replication, restore of the driver from the ledger, and the router's queues: a step takes the record a call is served from.
- The refresh arming, stated headers, message ring and seals of the landing pass: the refresh is an arbitrary later timer write, the rest touch nothing modelled.
- The limiter's held and target sets: a re-send reads its counter, its target's number and whether it may hold a set.
- A change of the answer budgets between arming a consult's deadline and reading its fold: the budgets of a run are fixed.
- Overflow of the 64-bit generation counter and of change numbers, and durations below a millisecond.
- Letter case beyond ASCII in host names, and the address parser that decides what an IP literal is.
- The order of reports, the texts of messages, and the joined path text of a purity breach, whose names are kept as a sequence.
- `[known.pure-reaches]`, untiered crates, images and the closure check of scripts/purity.py.
- Touched lines, hunks, lint attributes and bracket matching (`closing`, `item_end`) of the panic-sites scripts.
- Globs and scan directories of scripts/file-size.py: which paths are test files and how long each scanned file is are inputs.
- FileSize.UpdateKeepsTight: assumes of the renames git reports that a new path is not listed at the base and is no other's old path, which holds where the base list names files of the base; the settings lines are kept by FileSize.OthersKept.
- PanicSites.UpdatePassesIff: is about lists without renames and crates that own every path, the case the gate's own total is stated for.
- Attempts.NoTimerOutlivesItsAttempt: speaks of every point of a turn, and so of runs that arm under open attempts; what is armed under an ended one is gone at the turn's close (Attempts.SweptRunIsSound).
- Runs.LateAnswerReachesNoRule: is about the last deadline its answer closes; an admit sent twice under one id has two, and LateAdmit.LateAdmitMayBeAwaited shows the answer to one reading as the other's.
