# DawnMesh verification

A Dafny model of DawnMesh: the public-room state machine of the Go server, the
fusion directory and relay, the client's arithmetic, SPAKE2, scrypt and chat
cipher, and the microphone gate, with proofs of what each of them is for.
`dafny verify dfyconfig.toml` checks everything.

## How the project is laid out

| files | what they model |
|---|---|
| `RoomState`, `RoomInvariant` | rooms and members as values, one function per handler, and that every handler keeps the room invariant |
| `Admission` | what `joinRoom` decides, independent of map order |
| `RoomSweep` | the sweeper's three loops and their closed form |
| `HandlerOutcomes`, `HandlerAnswers` | every handler's outcome record by record and in milliseconds, who may do what, what the limits count and which answer is given: said of the members and rooms themselves, without the functions that compute it |
| `RoomStore`, `RoomWrites`, `RoomRollback` | the tables, the statements of `store.go`, memory and tables agreeing after every handler, and a rollback that is refused |
| `RoomMachine` | every run: handlers, sweeps, restarts and connection lifecycles interleaved |
| `RoomDepartures` | the steps that take a member away |
| `RoomDeadlines` | reservations that resuming cannot extend, over runs, and timeouts the sweep acts on |
| `RoomLifetime` | when a room ends, and exactly when it has a live host, an empty deadline, calm members and the host's nickname |
| `RateLimiter` | the attempt lists |
| `LiveObjects`, `HandlerSpecs`, `PublicServer` | the live `Room` and `Member` objects changed in place, what handlers answer, and the `Server` object with every handler as a method |
| `ServerRuns` | the server object with its history: every lock section carried out on the live objects is a step of a run |
| `MediaPolicy`, `MediaProgress` | concurrent `syncMediaPolicy` calls under striped locks; how and when they end |
| `FusionRoster`, `FusionHub`, `FusionRelay`, `FusionLaws` | the binary roster, the snapshot directory, the broadcast relay; what an upload and a packet change and what lasts, in plain numbers |
| `Bytes`, `Modular`, `Group`, `Curve`, `CurveLaw`, `P256`, `Spake2`, `SmallSuite` | big integers, number theory, curve points and the chord-and-tangent law, RFC 9382 and a small suite that meets its hypotheses |
| `Collections` | optional values and sizes of sets |
| `Words`, `Scrypt`, `Rfc7914`, `ChatCipher` | the scrypt core on word arrays and against the standard's own terms; nonces and replays |
| `MicrophoneGate` | presses racing queued mute and unmute calls |

Three kinds of statement carry the weight. A *specification function* says what one
handler does to the state; a *method* (loops, arrays and live objects as in the source)
is proved to compute it; *lemmas* prove what the source promises about the function over
every input, every run or every interleaving. So that the specification functions are not
their own measure, each is also pinned by lemmas in elementary terms: the field and bit laws,
the equations of the curve, known answers, records in milliseconds, exact conditions
(`CurveLaw`, `Rfc7914`, `HandlerOutcomes`, `HandlerAnswers`, `FusionLaws`, `MediaProgress`).
`ServerRuns.Service` joins the two: it
carries out each lock section on the live `Server` and keeps, as ghost state, a run of
`RoomMachine` that ends in exactly that server's rooms, members and channels. Every
handler extends the run by its own step, so what holds of every run holds of the objects.

## Conventions

- **Time** is integer milliseconds. A zero time is `None`.
- **Random IDs and tokens** are parameters. `createRoom` and `joinRoom` require their
  new IDs to be unused, which is what `randomID` gives.
- **Hashes** used for comparison are a free constructor, so equal digests mean equal
  inputs. Ed25519, SHA-256 of transcripts, HMAC and UTF-8 validity are function
  parameters: nothing is assumed of them.
- **Room and device IDs** are the raw bytes or strings; base64 is injective and left out.
- **The caller** of a handler is the live member: session lookup and handler are one
  step. `sweep` and `leaveMember`, each with the deletions that follow it, are one step.
- **Map iteration** is an arbitrary choice in every loop (`:|`), so each result proved
  about a loop holds for every iteration order.
- **Media-server calls** act or do not act before they return; a success means they acted.
  A rejected call on a microphone track left the track as it was. A WebSocket write that
  starts under a cancelled context fails.
- **The curve** is a parameter with a prime field. For P-256 itself two hypotheses are
  stated where they are used: `IsPrime(P)` and associativity of point addition. Closure,
  commutativity and inverses are proved from the code.

## Where the code does less than one might read into it

- *Revisions.* Accepted fusion revisions of a room are monotone exactly when the wait
  between reading the clock and holding the lock is short: upload wait plus packet wait
  at most 1,650,001 ms (27.5 minutes and one millisecond), and the upload wait alone at
  most 1,650,000 ms. The packet wait matters because a relayed packet writes the time at
  which it was read, so it can move a lease back. `RevisionsNeverFall` and
  `LongWaitsRegress` are the two directions.
- *Duplicates.* The relay compares times read before the lock, so two broadcasts of one
  packet are more than 15 s less that wait apart (`NoEarlyDuplicate`), and for every wait
  up to 15 s some run comes within a millisecond of that (`WaitShortensGap`).
- *Reservations.* An offline member's deadline is not moved by resuming, but it is moved by a
  late close: when two connections of one member have both seen no other channel, each marks
  the member offline, and the second starts the half hour of the member and of the room again
  although nobody came back (`LateCloseRenews`). Reconnecting, rejoining and late closes are
  the only things that renew a reservation (`ReservationStands`, `RenewsIndeed`), and up to and
  including its deadline no sweep takes it from a guest whose room stays (`PlaceKept`,
  `WhoMustStay`). The host's
  own deadline is not renewed by late closes or rejoins (`HostReservationStands`).
- *`modPow`* returns 1 for every exponent not above 0, whatever the modulus.
- *Live host.* A room loses its live host exactly when the host leaves while nobody else in it is
  connected (`HostLostIff`), and gets one back exactly by a sweep after its host deadline with
  somebody online (`HostRegainedIff`). A host that is connected has no host deadline, so a room
  it leaves to offline members never has a host again, whoever connects later (`AbandonedRun`,
  `HostlessForever`).
- *Empty deadline.* It is set only by a restart and by the close of a connection that leaves nobody
  online (`EmptyDeadlineSetIff`). A room nobody ever connected to has none, nor has one whose last
  online member left instead of closing (`TimedLostIff`), and no sweep ends such a room
  (`UntimedStands`). If the last one out is not the host the empty room stays (`LastOutStays`).
- *Deadlines of connected members.* A connected member has one exactly after rejoining while
  connected (`CalmLostIff`). Once it has passed, the member's own token is refused although it is
  connected (`ConnectedResume`).
- *`HostNickname`* stops being the host's nickname exactly when the host rejoins under another one
  (`NamesLostIff`).
- *Rollback of `createRoom`.* Memory is always taken back. The tables are exactly when the deletion
  is accepted or `saveRoom` was refused; a cancelled request can refuse both the later writes and
  the deletion. The rows that stay are those of a room the next start brings back, with its
  creator if that row was accepted (`RefusedRollback`).

## Model

| member | source | states |
|---|---|---|
| RoomMachine.RunInv | internal/server/server.go:281-315 | after every run of create, join, rejoin, resume, connect, disconnect, mute, handover, leave, settings, end, sweep and restart: members' rooms exist, the host flag is on exactly the room's host, hosts may speak, a host deadline means an offline host, an empty deadline means nobody online, orders are distinct, rooms are within capacity, bound devices are unique, and all IDs were issued |
| RoomMachine.StepInv | internal/server/server.go:502-590 | one step of any kind keeps the room invariant |
| RoomMachine.StepKnown | internal/server/server.go:264-278 | no step puts an ID into the state that was not issued, so new IDs are unused, also as a departed host |
| RoomMachine.PresenceFollowsChannels | internal/server/server.go:763-801 | in every interleaving of WebSocket and stream lifecycles: online without a channel only while a handler is between removal and mark-offline, offline with a channel only while one is between registration and mark-online; otherwise online exactly when a channel is registered |
| RoomMachine.RunPresence | internal/server/http_events.go:38-55 | the inductive form: a handler's channel is registered exactly from add to remove, and a member with an established handler is online |
| RoomMachine.MarkOffStep | internal/server/server.go:763-770 | marking offline never overrides a connection registered meanwhile, because the channels are looked at again under the lock |
| RoomMachine.RemoveStep | internal/server/http_events.go:41-46 | removing the last channel leaves a handler that is about to look |
| RoomMachine.CheckStep | internal/server/server.go:942-946 | a handler that gives up after looking leaves another registered channel |
| RoomMachine.HandlerMoves | internal/server/http_events.go:38-46 | the lifecycle of a handler step by step: where it stands next, which channels are registered then, and that no other handler is touched |
| RoomMachine.LiveStaysOnline | internal/server/server.go:783-788 | while a handler is established its member is online and its room has no empty deadline, whatever closes late |
| RoomMachine.QuietShape | internal/server/server.go:502-599 | every handler that admits nobody keeps rooms, devices, proofs, orders and presence of those that remain, and names a host that was already there |
| RoomDeadlines.ReservationStands | internal/server/server.go:360-369 | along any stretch of a run in which an offline member neither reconnects nor rejoins, and none of its connections closes late, its deadline d stays what it was, resumes and restarts included; the place is lost only by its own leave, the end of its room, a sweep that ends the room or replaces it as an overdue host, or a sweep after d |
| RoomDeadlines.PlaceKept | internal/server/server.go:345-353 | so without those the member is still there, and its token is accepted up to and including d |
| RoomDepartures.DepartsIff | internal/server/server.go:839-859 | a step takes a member away if and only if it is its own leave, the end of its room, or a sweep after the room's empty deadline, after an offline guest's own deadline, or after the host deadline of a host with somebody online |
| RoomDepartures.DepartedBy | internal/server/server.go:567-582 | in every run a member that was there and is gone went by one of these |
| RoomDeadlines.RenewsIndeed | internal/server/server.go:783-797 | and each of those does renew it: a connection brings the member online, a rejoin or a late close starts the half hour again |
| RoomDeadlines.LateCloseRenews | internal/server/server.go:763-797 | a run in which the second of two late closes moves the deadlines of the member and of the room although nobody came back |
| RoomDeadlines.NoLateResume | internal/server/server.go:345-353 | so once that deadline has passed no token resumes a member that is not its room's host, however often it was resumed before, and the next sweep removes it; the host resumes only under the host's own deadline |
| RoomDeadlines.HostReservationStands | internal/server/server.go:363-368 | along any stretch of a run in which an absent host does not reconnect, the host deadline stays what it was while it is the host: rejoins, late closes, resumes, others and restarts do not move it |
| RoomDeadlines.HostPlaceLost | internal/server/server.go:844-847 | and no sweep up to that deadline takes the host away, unless its room ends by its own deadline |
| RoomDeadlines.NoLateHostResume | internal/server/server.go:345-353 | so once the host deadline has passed no token resumes the host, and the next sweep with somebody online replaces and removes it |
| RoomDeadlines.ResumeCannotExtend | internal/server/server.go:360-369 | resuming twice gives the deadlines of the first time |
| RoomDeadlines.SpentForever | internal/server/server.go:358-359 | a token is good once: from its exchange on, along any run in which it is not issued again, it does not resume its member |
| RoomDeadlines.ExchangeSpends | internal/server/server.go:338-359 | resuming under a token spends it |
| RoomDeadlines.DropStartsClocks | internal/server/server.go:789-797 | a drop starts the member's clock, the room's exactly if it was the last one online, the host's exactly if it was the host |
| RoomDeadlines.ReturnForgetsDrop | internal/server/server.go:783-797 | a drop and a return give the state of having stayed |
| RoomDeadlines.TimedOutHostReplaced | internal/server/server.go:844-891 | after a sweep a room with somebody online whose host timed out has a connected host of least order, and the old one is gone |
| RoomLifetime.RoomEndsIff | internal/server/server.go:574-582 | a room ends if and only if it is ended by its host or an administrator, is swept after its empty deadline, or its host leaves it as the last one out |
| RoomLifetime.RoomEndedBy | internal/server/server.go:839-843 | in every run a room that was there and is gone ended by one of these, so no sweep up to its empty deadline ends it |
| RoomLifetime.HostLeaves | internal/server/server.go:574-582 | when the host leaves others behind the room stands, with a live host if and only if one of them is connected, who then is connected itself; else its record stays and names the one that left |
| RoomLifetime.HostLostIff | internal/server/server.go:574-577 | a surviving room loses its live host if and only if the host leaves while nobody else in it is connected |
| RoomLifetime.HostRegainedIff | internal/server/server.go:844-847 | and gets one back if and only if a sweep finds the host deadline passed and somebody online |
| RoomLifetime.HostlessForever | internal/server/server.go:865-874 | in every run, restarts and sweeps included: a room whose host left without a host deadline never has a live host again |
| RoomLifetime.AbandonedRun | internal/server/server.go:574-577 | a run that leads there: the host connects and leaves while its only guest is offline |
| RoomLifetime.LastOutStays | internal/server/server.go:578-582 | the last one out, if not the host, leaves the empty room standing with its record unchanged, and without an empty deadline if it was connected |
| RoomLifetime.EmptyDeadlineSetIff | internal/server/server.go:789-797 | an empty deadline is set if and only if the process restarts or a close leaves nobody of the room online |
| RoomLifetime.UntimedStands | internal/server/server.go:839-843 | along any run without these a room without an empty deadline keeps none, so no sweep ends it, at whatever time |
| RoomLifetime.CreatedUntimed | internal/server/server.go:281 | a new room starts that way |
| RoomLifetime.TimedLostIff | internal/server/server.go:567-586 | a room comes to have neither anybody online nor an empty deadline if and only if the last one online leaves |
| RoomLifetime.NamesLostIff | internal/server/join.go:92-98 | the nickname shown for the host stops being the host's if and only if the host rejoins under another one |
| RoomLifetime.RunNames | internal/server/server.go:885-887 | in every run without such a rejoin every room shows its host's nickname, across successions, handovers and restarts |
| RoomLifetime.CalmLostIff | internal/server/join.go:92-98 | a connected member without a deadline gets one if and only if it rejoins while connected |
| RoomLifetime.RunCalm | internal/server/server.go:783-797 | in every run without such a rejoin connected members have no deadline |
| RoomLifetime.ConnectedResume | internal/server/server.go:344-353 | a connected member's own token is accepted if and only if such a deadline has not passed, host or not |
| RoomInvariant.MarkedKeeps | internal/server/server.go:763-802 | both directions of `markConnected` keep the room invariant, deadlines included |
| RoomInvariant.ResumedKeeps | internal/server/server.go:358-369 | issuing a new token keeps the invariant: deadlines are filled in only for offline members |
| RoomInvariant.MutedKeeps | internal/server/server.go:514-522 | a permitted mute keeps the invariant: the host cannot be silenced |
| RoomInvariant.HandedOverKeeps | internal/server/server.go:545-560 | a permitted handover moves the flag, the speech right and the deadline together |
| RoomInvariant.PromotedKeeps | internal/server/server.go:876-891 | succession keeps the invariant whether or not the predecessor is dropped |
| RoomInvariant.LeftKeeps | internal/server/server.go:567-586 | leaving keeps the invariant with or without a successor, and when the room ends |
| RoomInvariant.DeletedKeeps | internal/server/server.go:893-917 | deleting a room keeps the invariant of all others and leaves no member behind |
| RoomInvariant.CreatedKeeps | internal/server/server.go:281-301 | a new room with its host under unused IDs keeps the invariant |
| RoomInvariant.RejoinedKeeps | internal/server/join.go:92-98 | replacing a member's record on rejoin keeps the invariant |
| RoomInvariant.RestartedKeeps | internal/server/server.go:61-77 | after a restart everyone is offline, every deadline is set, and the invariant holds |
| RoomInvariant.RestartForgetsPresence | internal/server/server.go:71-75 | presence is the only thing a restart loses |
| RoomInvariant.SuccessorUnique | internal/server/server.go:875-880 | the connected member of least order is unique, so the successor does not depend on map order |
| HandlerOutcomes.MarkOnline | internal/server/server.go:783-788 | connecting: the member online without deadline, its room without empty deadline, without host deadline if it is the host, and nothing else changed |
| HandlerOutcomes.MarkOffline | internal/server/server.go:789-797 | a last close: 1,800,000 ms for the member, for the room if nobody else is online, the room's own minutes for the host if no clock runs, and nothing else changed |
| HandlerOutcomes.MarkIgnored | internal/server/server.go:763-778 | a stale close and an unknown identity change nothing |
| HandlerOutcomes.ResumeAllowedIff | internal/server/server.go:338-353 | a token is accepted if and only if it is the member's in this room and its deadline, the host deadline for a host that has one, is absent or not passed |
| HandlerOutcomes.ResumeOutcome | internal/server/server.go:358-369 | a resume replaces the token and fills in what an offline member or host lacks; no deadline moves |
| HandlerOutcomes.CreateOutcome | internal/server/server.go:279-301 | every field of the new room and of its creator |
| HandlerOutcomes.JoinOutcomeOf | internal/server/join.go:83-91 | every field of the newcomer: it may speak, is offline for half an hour, and comes after everybody in the room |
| HandlerOutcomes.RejoinOutcome | internal/server/join.go:92-98 | a rejoin renews nickname, token and half hour, and no other field |
| HandlerOutcomes.MuteOutcome | internal/server/server.go:514-522 | a host may set the policy of every member of its room but its own, and nothing else changes |
| HandlerOutcomes.HandoverOutcome | internal/server/server.go:545-560 | who may hand over to whom, and the three records that change |
| HandlerOutcomes.GuestLeaveOutcome | internal/server/server.go:572-574 | a leaving guest takes its record along, and nothing else changes |
| HandlerOutcomes.HostLeaveOutcome | internal/server/server.go:575-577 | a leaving host is succeeded by the connected member that joined first, exactly |
| HandlerOutcomes.LoneHostLeaveOutcome | internal/server/server.go:578-582 | with nobody else online the room stays with its record if somebody is left, and ends otherwise |
| HandlerOutcomes.EndOutcome | internal/server/server.go:893-917 | ending a room removes it and exactly its members |
| HandlerOutcomes.RestartOutcome | internal/server/server.go:61-77 | a restart puts everybody offline and starts exactly the clocks that are not running |
| HandlerOutcomes.SweepRoomsIff | internal/server/server.go:839-843 | a sweep removes a room if and only if its empty deadline has passed |
| HandlerOutcomes.SweepMembersIff | internal/server/server.go:849-855 | and a member if and only if its room goes, it is an offline guest past its own deadline, or it is a host past the host deadline with somebody online |
| HandlerOutcomes.WhoMustStay | internal/server/server.go:850 | so an absent guest keeps its place up to and including its deadline, while its room stays |
| HandlerOutcomes.HostMustStay | internal/server/server.go:844-847 | and up to and including the host deadline the host stays the host |
| HandlerOutcomes.SweepRoomOutcome | internal/server/server.go:865-892 | a room that stays is unchanged unless its host is overdue: then it names the connected member that joined first and waits for no host |
| HandlerOutcomes.SweepMemberOutcome | internal/server/server.go:881-884 | a member that stays is unchanged unless it takes over: then it is the host and may speak |
| Admission.DeviceHasOneMember | internal/server/join.go:68-76 | a device carrying a proof belongs to one member of its room |
| Admission.VerdictUnique | internal/server/join.go:61-77 | wherever the loop stops it concludes the same |
| Admission.AdmitIff | internal/server/join.go:50-82 | a newcomer is admitted if and only if the code is right, nobody claims the device against it, and there is a place |
| Admission.ReadmitIff | internal/server/join.go:68-81 | a member is readmitted if and only if the code, device and proof are its own, full room or not |
| Admission.NextOrderUnique | internal/server/join.go:83-88 | a room has one next join order, whatever order its members are visited in |
| Admission.AdmittedKeeps | internal/server/join.go:78-91 | admission keeps capacity, device identity and distinct orders among the rest of the invariant |
| Admission.RejoinPreserves | internal/server/join.go:92-98 | a rejoin keeps ID, room, device, order, CanSpeak, host role, member count and everybody else |
| Admission.RejoinRepeats | internal/server/join.go:61-77 | after a rejoin the same device and proof are readmitted again |
| Admission.JoinThenRejoin | internal/server/join.go:90-91 | a newcomer that brought a proof is recognised from then on |
| HandlerAnswers.JoinLimits | internal/server/join.go:37-43 | a join passes if and only if fewer than 20 calls of the address, 10 of the device and 30 for the room were made in the last 60 s; the refused call counts, those after it are not made |
| HandlerAnswers.CreateLimits | internal/server/server.go:283 | likewise a creation with 10 and 3 |
| HandlerAnswers.ResumeLimit | internal/server/server.go:354 | and a resume with 20 |
| HandlerAnswers.IdleIff | internal/server/server.go:828-832 | the sweeper forgets a key exactly when none of its calls is from the last 60 s |
| HandlerAnswers.DecisionCases | internal/server/join.go:45-82 | each decision of a join if and only if its condition on the room's members holds |
| HandlerAnswers.JoinAnswers | internal/server/join.go:37-82 | 429, 404, 403, 409 and 201 each if and only if its condition on calls, room, code, device, proof and places holds |
| HandlerAnswers.ResumeAnswers | internal/server/server.go:338-376 | 401, 410, 429 and 200 likewise |
| HandlerAnswers.CreateAnswers | internal/server/server.go:253-325 | 400, 429 and 201 likewise, with the bounds on name, places, minutes, rooms and hosted rooms |
| RoomSweep.SweptAwayIsOffline | internal/server/server.go:839-855 | a sweep never removes a connected member |
| RoomSweep.ReplacedHostOffline | internal/server/server.go:844-847 | a replaced host was offline in its room, and its successor is connected, different and survives |
| RoomSweep.SweptKeeps | internal/server/server.go:824-863 | a sweep keeps the room invariant |
| RoomSweep.NothingLeft | internal/server/server.go:840-855 | after a sweep no room is past its deadline, no host due for replacement, no member expired |
| RoomSweep.SweepIdempotent | internal/server/server.go:824-863 | a second sweep at the same time changes nothing |
| RoomSweep.VisitRoom | internal/server/server.go:839-848 | one turn of the first loop is one more room of the closed form, whichever rooms came before |
| RoomSweep.VisitMember | internal/server/server.go:849-855 | one turn of the second loop is one more member of the closed form |
| RoomSweep.LoopsAreSwept | internal/server/server.go:839-859 | the three loops remove exactly the dead rooms with their members, the expired offline non-hosts and the timed-out hosts of surviving rooms with somebody online, and promote the connected member of least order; `SweepRoomsIff` and the lemmas beside it say who goes and who stays |
| RoomStore.LoadRestores | internal/server/store.go:124-252 | loading tables in step with memory gives every persisted field back, the host flag recomputed to the same value although it is not stored |
| RoomStore.RestartSimulates | internal/server/server.go:54-77 | a restart after any completed handler continues with the same state, everyone offline, invariant included |
| RoomStore.SaveRoomSyncs | internal/server/store.go:76-84 | the room upsert, which leaves created_at alone, brings the tables to the changed room |
| RoomStore.SaveMemberSyncs | internal/server/store.go:97-116 | the member upsert, which leaves room and device alone, brings the tables to any change that keeps identity |
| RoomStore.InsertMemberSyncs | internal/server/store.go:103-114 | a newcomer's rows are accepted and in step, proof included |
| RoomStore.HybridSyncs | internal/server/store.go:86-89 | the setting's row is in step, whether or not it existed |
| RoomStore.DeleteRoomSyncs | internal/server/store.go:258-261 | the cascade removes exactly the room's members, their proofs and every setting |
| RoomStore.DeleteMemberSyncs | internal/server/store.go:254-257 | the cascade removes the member with its proof and nothing else |
| RoomStore.FlagsUnstored | internal/server/store.go:103-106 | host and presence flags may change without a write |
| RoomStore.CreateSyncs | internal/server/server.go:302-308 | the four writes of a creation succeed in order and leave the tables in step |
| RoomStore.CreateRollsBack | internal/server/server.go:310-314 | whichever of the four writes were refused, deleting the room restores the tables exactly |
| RoomRollback.RefusedRollback | internal/server/server.go:310-314 | if that deletion is refused too, the tables are as before if and only if `saveRoom` was refused; otherwise they are in step with the state that has the room, with its creator, access and monitoring key as far as their rows were accepted |
| RoomWrites.MarkedGood | internal/server/server.go:798-799 | after `markConnected` and its two writes invariant and agreement hold |
| RoomWrites.HandedOverGood | internal/server/server.go:553-560 | saving only the new host and the room is enough: the old host's row does not hold the flag |
| RoomWrites.PromotedGood | internal/server/server.go:876-891 | the writes of a succession, deletion of the predecessor included, keep invariant and agreement |
| RoomWrites.JoinedGood | internal/server/join.go:99-118 | an admission saved before it is installed keeps invariant and agreement |
| RoomWrites.LoadedGood | internal/server/server.go:54-77 | repairing what was loaded, record by record, gives the state a restart promises |
| RoomWrites.RepairRoomStep | internal/server/server.go:62-70 | one turn of the first repair loop keeps memory and tables in step |
| RoomWrites.RepairMemberStep | internal/server/server.go:71-77 | one turn of the second repair loop likewise |
| PublicServer.Server.constructor | internal/server/server.go:45-80 | starting from tables in step with a state gives that state restarted, valid, with no channels or attempts |
| PublicServer.Server.LoadMembers | internal/server/store.go:238-250 | the loop gives one live object per row with the recomputed flag |
| PublicServer.Server.CreateRoom | internal/server/server.go:242-325 | exact status for every input; on success the new pair and nothing else; on any failure memory as before, and tables as before if and only if the deletion was accepted or `saveRoom` refused; the limits count the call exactly when the parameters are right and the server is not full |
| PublicServer.Server.Establish | internal/server/server.go:300-314 | created if and only if all writes and the grant succeed, otherwise memory is back, and so are the tables if and only if the deletion was accepted or `saveRoom` refused; else they are in step with the room left over |
| PublicServer.Server.JoinRoom | internal/server/join.go:35-136 | status by limits, then by the decision, then by grant and save; one new record, one replaced record, or no change |
| PublicServer.Server.FindPrevious | internal/server/join.go:61-77 | the loop, in any order, finds what `LookupOf` says |
| PublicServer.Server.NextOrder | internal/server/join.go:83-88 | the loop, in any order, finds one more than the largest order |
| PublicServer.Server.ReadmitAs | internal/server/join.go:92-118 | a copy of the previous object replaces it only if the save succeeds |
| PublicServer.Server.CountMembers | internal/server/server.go:716-724 | the count is the size of the room's member set |
| PublicServer.Server.Resume | internal/server/server.go:332-378 | 401, 410, 429 in that order; past them the token is exchanged even if the grant fails; the limits count the call exactly when the token may be exchanged |
| PublicServer.Server.AdminVoicePolicy | internal/server/admin.go:184-208 | a permitted mute, or no change at all when the target is the host or elsewhere or the save fails |
| PublicServer.Server.VoicePolicy | internal/server/server.go:502-524 | the host's mute of another member of its room, exactly |
| PublicServer.Server.Handover | internal/server/server.go:534-562 | the role moves only from the current host to another connected member of the room |
| PublicServer.Server.LeaveMember | internal/server/server.go:567-586 | the caller goes; a leaving host is succeeded if anyone is connected; the host, if it is the last one out, ends the room |
| PublicServer.Server.AssignHost | internal/server/server.go:865-892 | memory and tables move to the state with the unique successor, or stay if nobody is connected |
| PublicServer.Server.FirstCandidate | internal/server/server.go:866-880 | the first candidate in join order, none exactly when nobody of the room is connected |
| PublicServer.Server.DeleteRoom | internal/server/server.go:893-917 | the room and exactly its members go, from memory and tables; an unknown room changes nothing |
| PublicServer.Server.EndRoom | internal/server/server.go:592-599 | only the host ends its room |
| PublicServer.Server.AdminEndRoom | internal/server/admin.go:224-235 | 404 for an unknown room, else the deletion |
| PublicServer.Server.RenameRoom | internal/server/server.go:476-497 | the host's rename, exactly |
| PublicServer.Server.AdminRenameRoom | internal/server/admin.go:149-179 | a failed save leaves name and tables as before |
| PublicServer.Server.SetHybridAudio | internal/server/server.go:440-471 | only the current host, and only what was saved |
| PublicServer.Server.SetPresenceAnnouncements | internal/server/server.go:408-435 | only the current host, and only what was saved |
| PublicServer.Server.MarkConnected | internal/server/server.go:763-800 | the state of `Marked` with the live channels of both kinds deciding whether a close counts |
| PublicServer.Server.AddSocket | internal/server/server.go:926-933 | one channel more for this identity, none changed for others |
| PublicServer.Server.RemoveSocket | internal/server/server.go:934-941 | one channel fewer, and no empty entry stays |
| PublicServer.Server.AddEventStream | internal/server/http_events.go:100-107 | one stream more for this identity, none changed for others |
| PublicServer.Server.RemoveEventStream | internal/server/http_events.go:109-116 | one stream fewer, and no empty entry stays |
| PublicServer.Server.HasSocket | internal/server/server.go:942-946 | true exactly when a channel of either kind is registered |
| PublicServer.Server.EventPrincipal | internal/server/http_events.go:13-23 | a member with this token, none exactly when nobody has it |
| PublicServer.Server.SomeoneOnline | internal/server/server.go:803-810 | true exactly when a member of the room is connected |
| PublicServer.Server.Allow | internal/server/server.go:1020-1031 | the kept list is the full history of the key cut to the window, and the answer is whether that many calls are within the limit, this one included |
| PublicServer.Server.AllowAll | internal/server/join.go:37-43 | the chain of limits stops at the first refusal and counts exactly the calls it made |
| PublicServer.Server.SweepIdle | internal/server/server.go:812-832 | exactly the keys idle at the tick go, even if the tick precedes the last call, and the lists still answer for the full history |
| PublicServer.Server.Sweep | internal/server/server.go:824-859 | whatever order the loops run in, the state becomes the closed form that `SweepMembersIff` and `SweepRoomsIff` characterise, memory and tables in step |
| ServerRuns.Service.constructor | internal/server/server.go:45-80 | a process that starts on the tables an earlier run left behind continues that run by a restart |
| ServerRuns.FirstStart | internal/server/server.go:45-60 | the first process may start on empty tables, after the run without steps |
| ServerRuns.Service.CreateRoom | internal/server/server.go:242-325 | on the live objects: a created room extends the run by its step, any other answer leaves run and memory; objects and tables stay in step but for a rollback refused after an accepted `saveRoom` |
| ServerRuns.Service.JoinRoom | internal/server/join.go:35-136 | likewise for a newcomer and for a member that is recognised |
| ServerRuns.Service.LeaveMember | internal/server/server.go:567-586 | leaving, succession and the end of the room are one step of the run |
| ServerRuns.Service.Sweep | internal/server/server.go:824-863 | the loops over the live objects are one step of the run |
| ServerRuns.Service.Find | internal/server/http_events.go:13-23 | a new handler enters the run at the member that holds the token |
| ServerRuns.Service.Register | internal/server/server.go:926-933 | registering a channel of either kind is the step that adds it |
| ServerRuns.Service.Connect | internal/server/server.go:624 | marking online on the live objects is the step that establishes the handler |
| ServerRuns.Service.Unregister | internal/server/http_events.go:41-42 | removing the channel, of either kind and wherever the handler stands, is the step that removes it |
| ServerRuns.Service.Look | internal/server/server.go:644 | looking for other channels decides whether the handler is done or goes on to mark the member offline |
| ServerRuns.Service.Disconnect | internal/server/http_events.go:43-45 | marking offline on the live objects, with the channels looked at again, is the last step of a handler |
| ServerRuns.MarkFollows | internal/server/server.go:763-770 | the two tables of channels decide a close as the set of all channels does |
| ServerRuns.FindFollows | internal/server/http_events.go:38-40 | a new connection is nobody's channel yet, whatever happened before |
| ServerRuns.Service.OnlineIffBusy | internal/server/server.go:763-801 | of the live objects after any history: a member none of whose handlers is about to mark it is online exactly when a channel of its is registered |
| ServerRuns.Service.EstablishedStaysOnline | internal/server/server.go:783-788 | of the live objects after any history: while a handler stands at its established stream its member is online and its room has no empty deadline |
| RateLimiter.CallKeepsMeaning | internal/server/server.go:1024-1029 | trimming and appending keeps every answer at any later time equal to the one the full history gives |
| RateLimiter.ForgetKeepsMeaning | internal/server/server.go:828-832 | forgetting an idle key changes no later answer |
| RateLimiter.MinuteBounded | internal/server/server.go:1020-1031 | no minute, wherever it starts, admits more calls of a key than its limit |
| RateLimiter.RecentIsSuffix | internal/server/server.go:1024-1028 | in a sorted list the calls of the window are those from the first recent one on |
| MediaPolicy.Converges | internal/server/media_policy.go:12-48 | in every interleaving: once a call that locked after the last change returned nil, the media server's permission is the policy until the next change, with older calls still running |
| MediaPolicy.ConvergesFromRecheck | internal/server/media_policy.go:30-37 | the same when only the final reading came after the last change |
| MediaPolicy.Exclusive | internal/server/media_policy.go:13-15 | two calls of one member are never both past the stripe lock |
| MediaPolicy.RunInv | internal/server/media_policy.go:17-46 | over every run: locks are held, each call knows what its last reading implies, and updates in progress read after every decision |
| MediaProgress.CallsCounted | internal/server/media_policy.go:17-47 | in every run a call gives up after exactly three attempts, succeeds after one to three, and finds its member gone before the third ends |
| MediaProgress.SuccessIff | internal/server/media_policy.go:30-37 | it decides for success if and only if its update succeeded and the policy it sent is still in force |
| MediaProgress.ReadDecides | internal/server/media_policy.go:18-25 | it finds the member gone if and only if there is no policy, and sends the policy otherwise |
| MediaProgress.ApplySets | internal/server/media_policy.go:27 | the media server is told what the call read, about its member and nobody else |
| MediaProgress.UndisturbedSucceeds | internal/server/media_policy.go:17-37 | an undisturbed attempt returns success with the permission equal to the policy and the stripe free |
| MediaProgress.CallAdvances | internal/server/media_policy.go:17-47 | every step of its own brings a call nearer its end, which is at most 17 such steps away, and no other step delays it |
| MediaProgress.NoDeadlock | internal/server/media_policy.go:13-15 | in every run a call that has not returned can advance, or the holder of its stripe can |
| FusionRoster.ParseFusion | internal/server/fusion.go:78-126 | the offset loop with its sets returns what the roster grammar says, and no index is out of range |
| FusionRoster.RoundTrip | internal/server/fusion.go:78-126 | every well-formed, signed and timely snapshot parses back to itself |
| FusionRoster.AcceptedIsEncoding | internal/server/fusion.go:80-125 | whatever is accepted is well formed and timely, its signatures verify, and the bytes are its encoding |
| FusionLaws.ParsedIff | internal/server/fusion.go:78-126 | a snapshot is returned if and only if the bytes are its signed encoding for this room, its revision lies from 90 s behind the clock to 60 s ahead, and it keeps the roster's rules, each stated with its number |
| FusionRoster.EntriesUnique | internal/server/fusion.go:103-124 | an accepted member list has distinct IDs and devices and re-encodes to exactly the bytes read |
| FusionRoster.EntriesOkIff | internal/server/fusion.go:101-120 | the sets carried along amount to pairwise distinct IDs and devices |
| FusionRoster.LengthBound | internal/server/fusion.go:24 | no well-formed roster exceeds 1002 bytes |
| FusionRoster.CapRejectsNothing | internal/server/fusion.go:88 | any larger cap gives the same parser |
| FusionRoster.CapAttained | internal/server/fusion.go:23-24 | sixteen members with 40-byte names reach the cap |
| FusionHub.RevisionsNeverFall | internal/server/fusion.go:151-168 | with short waits, in every run: accepted revisions of a room never decrease, across pruning and re-creation, and rise after a dissolution |
| FusionHub.LongWaitsRegress | internal/server/fusion.go:67-77 | with any longer waits some run of properly signed, parsed and accepted uploads breaks that |
| FusionHub.SignedIsAccepted | internal/server/fusion.go:78-126 | the creator of a room can have any revision of the 90 s back to 60 s ahead window accepted |
| FusionHub.SomeoneCanSign | internal/server/fusion.go:83-94 | the assumption made about the signer in these two can be met |
| FusionHub.AcceptIsAbove | internal/server/fusion.go:155-168 | an accepted upload is at or above the room's last acceptance, above it after a dissolution |
| FusionHub.DirectoryBounded | internal/server/fusion.go:164-167 | the directory never holds more than 256 rooms |
| FusionHub.TimelyBounds | internal/server/fusion.go:95-98 | within the range of Go's clock the acceptance window is 90 s back to 60 s ahead |
| FusionHub.Directory.Prune | internal/server/fusion.go:67-76 | exactly the rooms idle for more than 30 minutes go, in any order |
| FusionHub.Directory.SyncFusion | internal/server/fusion.go:151-176 | verdict and new directory after pruning, as `UploadVerdict` and `UploadOutcome` characterise them |
| FusionLaws.UploadVerdict | internal/server/fusion.go:154-167 | conflict if and only if the living room is dissolved, has another manifest, a higher revision, or another state at the same one; full if and only if the room is new and 256 rooms live |
| FusionLaws.UploadOutcome | internal/server/fusion.go:153-168 | afterwards exactly the living rooms and the accepted one are there, the others unchanged, and the accepted record is the upload with the connections and the history of a living predecessor |
| FusionLaws.RelaySurvives | internal/server/fusion.go:161-163 | so no upload throws away the connections or the history of a living room |
| FusionHub.RelayKept | internal/server/fusion.go:161-163 | a record starts empty only where an upload creates it or replaces a dead one; every other step but its own packets and connections leaves its relay alone |
| FusionLaws.LogBreaks | internal/server/fusion.go:161-163 | in every run a room's log only grows, whatever is uploaded, unless the room was silent for more than half an hour |
| FusionLaws.ConnectionGoes | internal/server/fusion.go:249-255 | and a connection goes only with such a room or by its own removal |
| FusionHub.Directory.RelayFusion | internal/server/fusion.go:317-349 | which packets end their connection, which renew the lease, and what they do to the record |
| FusionLaws.HandledOutcome | internal/server/fusion.go:317-328 | a packet changes something if and only if its room is known and not dissolved for more than 3 s; an authenticated one renews the lease of a room that has not ended |
| FusionLaws.PacketOutcome | internal/server/fusion.go:329-349 | a packet is broadcast if and only if it is not remembered and fewer than 16,384 are, after the clean-up due every second of those older than 15 s; then every other connection has it at the end of its queue, or is cancelled with 128 waiting |
| FusionLaws.JoinOutcome | internal/server/fusion.go:238-246 | a connection is taken in if and only if fewer than 20 are, under a new number and with nothing to deliver |
| FusionHub.DirectoryOrder | internal/server/fusion.go:161-163 | in every run of the directory, for every connection of every record, replacements included: delivered, in flight and queued are the broadcasts of others since it came, in order and without gaps, under the bounds on connections and history; `ConnectionGoes` says that it lasts |
| FusionHub.DirectoryNoEarlyDuplicate | internal/server/fusion.go:329-338 | in every run of the directory no record broadcasts a packet twice within 15 s less the longest wait, replacements included |
| FusionHub.GoesOnlySilent | internal/server/fusion.go:67-76 | in every run a room that was in the directory and is not any more was found, in between, half an hour after its last upload or authenticated packet |
| FusionHub.DissolutionStands | internal/server/fusion.go:155-176 | in every run, for half an hour after its upload a dissolved room stays dissolved with the same signed bytes, whatever uploads, relayed packets and listings come |
| FusionRelay.RelayOrder | internal/server/fusion.go:261-277 | for every connected peer: delivered, in flight and queued are all the broadcasts of others since it joined, in the common order without gaps; a cancelled peer has a prefix |
| FusionRelay.FanOutInOrder | internal/server/fusion.go:337-348 | fan-out appends to every queue or cancels, so nobody gets a gap |
| FusionRelay.RelayBounds | internal/server/fusion.go:239-246 | at most 20 peers and 16384 remembered packets, always |
| FusionRelay.NoEarlyDuplicate | internal/server/fusion.go:329-338 | while a record lives no packet is broadcast twice within 15 s less the longest wait for the lock |
| FusionRelay.WaitShortensGap | internal/server/fusion.go:287-317 | the wait cannot be left out: a run attains the bound |
| FusionRelay.RelayRoom.RelayPacket | internal/server/fusion.go:317-349 | the locked section computes the relay step, clean-up and fan-out in any order |
| FusionRelay.RelayRoom.CleanUp | internal/server/fusion.go:329-336 | exactly the entries older than 15 s go |
| FusionRelay.RelayRoom.Send | internal/server/fusion.go:339-347 | every other peer is offered the packet once |
| Bytes.BigintFromBytes | frontend/src/client/crypto.ts:79-83 | the loop reads the number the bytes denote, most significant first |
| Bytes.BigintBytes | frontend/src/client/crypto.ts:85-94 | succeeds exactly for 0 <= value < 256^length, with bytes that denote the value |
| Bytes.ToBigEndianOfValue | frontend/src/client/crypto.ts:79-94 | encoding the number of a byte string gives the string back |
| Bytes.Uint64LE | frontend/src/client/crypto.ts:159-167 | eight bytes that denote the value modulo 2^64, least significant first |
| Modular.ModIsResidue | frontend/src/client/crypto.ts:18-21 | correcting the truncated remainder gives the mathematical residue for negative values too |
| Modular.ModInverse | frontend/src/client/crypto.ts:33-45 | terminates; succeeds exactly when the greatest common divisor is 1, with the reduced inverse |
| Modular.InverseUnique | frontend/src/client/crypto.ts:33-45 | there is at most one reduced inverse |
| Modular.EuclidStep | frontend/src/client/crypto.ts:38-42 | one turn keeps the cofactor congruences and the greatest common divisor |
| Modular.ModPow | frontend/src/client/crypto.ts:23-31 | equals the true power modulo the modulus for every positive exponent |
| Modular.Fermat | frontend/src/client/crypto.ts:100 | a^p is congruent to a for a prime p, by the binomial theorem |
| Modular.SquareRoot | frontend/src/client/crypto.ts:100 | for a prime 3 mod 4, v^((p+1)/4) is a square root of v if and only if v is a square |
| Curve.AddClosed | frontend/src/client/crypto.ts:47-61 | on any curve over a prime field addition never throws, and gives infinity or a reduced point of the curve; which one is said by the three laws below |
| CurveLaw.ChordLaw | frontend/src/client/crypto.ts:55-61 | two curve points of different abscissas add to q if and only if q, reflected, lies on the line through them and the three abscissas sum to the square of its slope |
| CurveLaw.TangentLaw | frontend/src/client/crypto.ts:52-61 | a curve point doubles to q if and only if the same holds with the tangent |
| CurveLaw.VerticalLaw | frontend/src/client/crypto.ts:48-53 | and two points add to infinity if and only if they have one abscissa and opposite ordinates |
| Curve.AddCommutes | frontend/src/client/crypto.ts:47-61 | addition of curve points commutes, tangents and secants included |
| Curve.NegateCancels | frontend/src/client/crypto.ts:75-77 | the negated point is on the curve and adds to infinity |
| Curve.PointMultiply | frontend/src/client/crypto.ts:63-73 | the loop stays on the curve, and is repeated addition, by the chord-and-tangent law, of the scalar modulo N once addition is associative |
| Curve.MultiplyIsTimes | frontend/src/client/crypto.ts:63-73 | double-and-add equals repeated addition |
| Curve.DecodeEncode | frontend/src/client/crypto.ts:106-123 | every finite curve point survives its 65-byte encoding |
| Curve.EncodeDecode | frontend/src/client/crypto.ts:106-123 | what decodes is a curve point, and only its own encoding decodes to it |
| Group.DoubleAndAddIsTimes | frontend/src/client/crypto.ts:67-71 | in any monoid of this kind double-and-add from an accumulator adds the multiple |
| Group.Exchange | frontend/src/client/crypto.ts:200-201 | the order of two scalars does not matter |
| P256.DecodeCompressed | frontend/src/client/crypto.ts:96-104 | computes the root of the stated parity through `modPow` |
| P256.CompressedOnCurve | frontend/src/client/crypto.ts:96-104 | the result satisfies the equation if and only if the abscissa has a point, has the stated parity, and is reduced except when the right-hand side is divisible by P and the prefix is odd |
| P256.GeneratorOnCurve | frontend/src/client/crypto.ts:13-16 | the generator lies on the curve |
| P256.GeneratorMultiples | frontend/src/client/crypto.ts:47-61 | if P is prime, pointAdd doubles and triples the generator to the known points |
| P256.OrderIsNear | frontend/src/client/crypto.ts:10-12 | N is in Hasse's interval of the field |
| P256.MasksOnCurve | frontend/src/client/crypto.ts:125-126 | both constants the client decodes are clear of that case and decode to points of the curve |
| P256.ClientSuiteSound | frontend/src/client/crypto.ts:9-16 | the client's constants meet what the agreement asks, under the two hypotheses |
| Spake2.Session.Create | frontend/src/client/crypto.ts:185-193 | on a sound suite fails exactly when the secret's multiple of G plus the password's multiple of the mask is infinity; the scalar is reduced |
| Spake2.Session.Finish | frontend/src/client/crypto.ts:195-220 | the first call computes the outcome, which `FinishSucceedsIff` and `FinishKeys` characterise; every later call throws |
| Spake2.FinishSucceedsIff | frontend/src/client/crypto.ts:198-202 | it succeeds if and only if the peer's bytes are a curve point and the secret times that point without the password's mask is finite |
| Spake2.FinishKeys | frontend/src/client/crypto.ts:203-219 | then the transcript is both identities, A's and B's message, the shared point and the scalar, each after its length in eight bytes, and the keys are the first half of its hash and its codes under the two halves of the key derived from the second half |
| Spake2.KeySchedule | frontend/src/client/crypto.ts:212-219 | the key schedule of RFC 9382, section 4, by concatenation |
| Spake2.HkdfIsRfc5869 | frontend/src/client/crypto.ts:178-181 | the derivation is HKDF with a zero salt and 32 bytes of output |
| Bytes.LittleEndianDigit | frontend/src/client/crypto.ts:159-167 | byte i of the length is its digit of weight 256^i |
| Curve.EncodeHalves | frontend/src/client/crypto.ts:120-123 | a point encodes as 04 and its two coordinates in 32 bytes each |
| Spake2.Agreement | frontend/src/client/crypto.ts:195-220 | an A and a B with the same scalar and identities finish with the same transcript, key and confirmations, and fail only when the shared point is infinity |
| Spake2.PeerUnmasked | frontend/src/client/crypto.ts:198-201 | removing the peer's mask leaves the product of both secrets |
| Spake2.TranscriptInjective | frontend/src/client/crypto.ts:203-211 | no two lists of fields share a transcript |
| Spake2.TranscriptBinds | frontend/src/client/crypto.ts:203-211 | equal transcripts mean equal scalars, identities, messages and shared points |
| SmallSuite.SoundIsPossible | frontend/src/client/crypto.ts:47-61 | the hypotheses of the agreement are consistent: a curve whose five points form the cyclic group under the code's own tangents and chords meets all of them |
| Words.RotateFits | frontend/src/client/crypto.ts:223-225 | or-ing the two shifted parts of a word is their sum and stays a word |
| Words.BitLaws | frontend/src/client/crypto.ts:223-264 | exclusive-or, and, or, bit by bit |
| Words.MaskIsRemainder | frontend/src/client/crypto.ts:322 | masking with 2^k - 1 is the remainder modulo 2^k |
| Words.PowerOfTwoTest | frontend/src/client/crypto.ts:312 | n & (n - 1) is zero exactly for the powers of two |
| Scrypt.Salsa208InPlace | frontend/src/client/crypto.ts:227-264 | thirty-two in-place assignments, four times, are section 3 of RFC 7914, with the word operation the laws below pin |
| Rfc7914.MixRotatesSum | frontend/src/client/crypto.ts:223-261 | with nothing to combine with, an assignment adds modulo 2^32 and then rotates to the left |
| Rfc7914.MixCombinesBits | frontend/src/client/crypto.ts:228-261 | and it combines the result bit by bit modulo two |
| Rfc7914.FirstUnit | frontend/src/client/crypto.ts:230-233 | the quarter-round of (1, 0, 0, 0), with its four distances |
| Rfc7914.UnitRounds | frontend/src/client/crypto.ts:230-261 | both rounds on unit rows and columns, each quarter-round at its own places, after the Salsa20 specification |
| Rfc7914.EightRounds | frontend/src/client/crypto.ts:229-263 | columns and rows four times in turn, then the input added to each word modulo 2^32 |
| Rfc7914.BlockMixChain | frontend/src/client/crypto.ts:266-279 | the chain of section 4: every Y_i is the hash of the bitwise sum of its predecessor and block i, and the output is the even ones and then the odd ones |
| Rfc7914.RoMixTurns | frontend/src/client/crypto.ts:315-326 | the vector and the turns of section 5, with the entry selected by the first word of the last block modulo N |
| Scrypt.ColumnsAsQuarters | frontend/src/client/crypto.ts:230-245 | the sixteen column assignments are four quarter-rounds that do not disturb each other |
| Scrypt.RowsAsQuarters | frontend/src/client/crypto.ts:246-261 | likewise for the rows |
| Scrypt.BlockMixInto | frontend/src/client/crypto.ts:266-279 | the chain and the even-odd shuffle are section 4 of RFC 7914 |
| Scrypt.SelectByMask | frontend/src/client/crypto.ts:322 | masking one word selects Integerify(X) mod N for every power of two a word holds |
| Scrypt.StoredEntry | frontend/src/client/crypto.ts:316-324 | the flat memory holds entry i at offset i times the block length |
| Scrypt.TurnIsStep | frontend/src/client/crypto.ts:321-326 | each turn of the second loop is the step section 5 prescribes |
| Scrypt.FillMemory | frontend/src/client/crypto.ts:316-320 | the first loop stores V_0 to V_(N-1) and leaves the N-th iterate |
| Scrypt.RoMixInPlace | frontend/src/client/crypto.ts:315-326 | both loops compute scryptROMix of section 5 of RFC 7914 |
| Scrypt.Scrypt | frontend/src/client/crypto.ts:311-327 | refused unless p is 1 and n a power of two above 1, else scryptROMix |
| ChatCipher.SeenIsLatest | frontend/src/client/crypto.ts:381-386 | the tracked counter of a prefix is its latest accepted one, and nothing else is tracked |
| ChatCipher.AcceptedIncrease | frontend/src/client/crypto.ts:377-388 | over any order of completions accepted counters of a prefix strictly increase, so nothing is accepted twice |
| ChatCipher.NeverEvicted | frontend/src/client/crypto.ts:383-386 | a tracked prefix stays tracked and never goes back |
| ChatCipher.SendersBounded | frontend/src/client/crypto.ts:385 | at most 128 prefixes are tracked |
| ChatCipher.VerdictFromHistory | frontend/src/client/crypto.ts:381-386 | replay and refusal in terms of the history; an established sender's higher counter is always accepted |
| ChatCipher.NonceInjective | frontend/src/client/crypto.ts:371-373 | distinct counters give distinct nonces |
| ChatCipher.Cipher.TakeNonce | frontend/src/client/crypto.ts:369-375 | a nonce never used before, refused exactly after 2^32 of them |
| ChatCipher.Cipher.Complete | frontend/src/client/crypto.ts:377-388 | the code's verdict and table are those of the model |
| MicrophoneGate.GateSafety | frontend/src/shared/microphone-gate.ts:16-51 | in every interleaving: drained and capturing implies the last set was true and nothing was disposed |
| MicrophoneGate.DisposedIsClosed | frontend/src/shared/microphone-gate.ts:44-51 | after disposal capture is closed and the device released, except while an unmute has acted and not resolved |
| MicrophoneGate.LateUnmuteCloses | frontend/src/shared/microphone-gate.ts:29-35 | then the one queue step left closes and stops |
| MicrophoneGate.QueueDrains | frontend/src/shared/microphone-gate.ts:25-40 | every queue step lowers the work left, and until it is gone some step is possible |
| MicrophoneGate.GateFollowsPress | frontend/src/shared/microphone-gate.ts:22-42 | without rejections or disposal a drained gate is open exactly when the last set was true, and the last call to the track that acted was an unmute or a mute accordingly |
| MicrophoneGate.RunInv | frontend/src/shared/microphone-gate.ts:22-51 | over every run an open gate is wanted or has an unobserved unmute, and a disposed one wants nothing |
| MicrophoneGate.MicrophoneGate.SetEnabled | frontend/src/shared/microphone-gate.ts:22-25 | the synchronous part closes at once and queues one entry |
| MicrophoneGate.MicrophoneGate.DisposeGate | frontend/src/shared/microphone-gate.ts:44-51 | disposal closes and stops at once |
| MicrophoneGate.MicrophoneGate.Begin | frontend/src/shared/microphone-gate.ts:26-38 | a queue entry up to its first await |
| MicrophoneGate.MicrophoneGate.Continue | frontend/src/shared/microphone-gate.ts:29-39 | a queue entry after its pending call resolved |

## Left out

- HTTP routing, JSON, headers, bearer checks, the validity tests of nicknames, device IDs and credentials, embedded assets, configuration, logging and the JSON built for answers and broadcasts: no deep state.
- PublicServer.Server.CreateRoom: after a rollback refused by the database nothing is promised of the later handlers, whose contracts ask that memory and tables agree; `RefusedRollback` says what the next start finds.
- WebSocket and LiveKit wire behaviour beyond "a step happened or failed", and closing the old channels of a replaced session.
- Database failures other than those of `createRoom`, `joinRoom`, `adminVoicePolicy`, `adminRenameRoom` and the two room settings: the other handlers ignore the error, so their methods state the successful write.
- Administrator listening and its leases; they are not persisted and touch no room or member.
- Sub-millisecond parts of times, which the database does not keep.
- The moment between the lock section of `sweep` or `leaveMember` and the deletion of a room it decided on: whoever joins or reconnects in it goes with the room.
- The race between looking up a session and running its handler: a caller that was replaced meanwhile. `setHybridAudio` and `routeEvent` look again themselves.
- PublicServer.Server.FirstCandidate: keeps the least candidate while it loops where the source collects, sorts and takes the first; with distinct orders there is no difference.
- PublicServer.Server.RenameRoom: takes the trimmed name and counts characters, without UTF-8 validity.
- The relay's per-connection packet counters, text messages and the 20 s authentication deadline; a peer that is dropped for any of them is a cancellation.
- FusionHub.RevisionsNeverFall: is about accepted uploads; the listing and the authentication of relay connections are not modelled.
- A digest in the relay's cache is the packet itself, so a SHA-256 collision is not represented.
- Associativity of point addition and primality of the P-256 constants: hypotheses of the lemmas that need them.
- Scrypt.Scrypt: starts from the expanded words and ends with the mixed ones; PBKDF2 and the conversion between bytes and words are not modelled, and n is at most 2^31.
- AES-GCM, key import and the numeric invitation code.
- User interface, device selection, reconnect timers and speech announcements of the frontend.
