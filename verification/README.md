# Ordering, delivery and bookkeeping of the SFU, proved

This project models the parts of the selective forwarding unit that carry ordering, delivery and
bookkeeping promises, and proves those promises.  Each component is a step system: the steps are the
regions the code runs while it holds one lock, or one event of a single-goroutine queue, and runs are
arbitrary sequences of such steps.  A main theorem speaks of every run, whatever the interleaving, the
network or the timers do.

Where the code updates an object in place there is a class with the code's fields and methods; every
method's `ensures` equates its new state with the step function, applied to the old state, whose runs
the theorems are about.

| file | what it models |
|---|---|
| `SignalRelay.dfy`, `SignalDelivery.dfy`, `SignalEndpoints.dfy` | the signal relay: the batching, resending sink, the trimming reader and the bounded channel behind it; what it never does, and what it does deliver |
| `ReliableData.dfy`, `ReliableDelivery.dfy` | reliable data towards a joining participant: cache, live broadcast and replay, and whom they reach |
| `PublisherMigration.dfy`, `MigrationDelivery.dfy` | reliable sequences of a publisher that moves between nodes, and exactly which are forwarded |
| `Subscriptions.dfy`, `SubscriptionOutcomes.dfy`, `SubscriptionManager.dfy` | the subscription reconciler, its counters, its index and its convergence; how an attempt ends |
| `StatusCallbacks.dfy` | the order in which the subscribe-status callbacks arrive |
| `Negotiation.dfy`, `NegotiationProgress.dfy`, `PCTransport.dfy` | offer/answer negotiation and ICE restarts of one peer connection; what is sent and what fails |
| `LocalCandidates.dfy`, `LocalDelivery.dfy`, `RemoteCandidates.dfy` | the local and the remote candidates held back around descriptions |
| `TrackSettings.dfy` | versioned application of subscriber settings to a down track |
| `JoinUpdates.dfy`, `IceTrickle.dfy` | participant updates around the JoinResponse; the one-slot delay of local candidates |
| `ParticipantUpdates.dfy`, `BatchChunking.dfy` | the queue of participant updates of a room, and their broadcast in chunks |
| `AgentRegistry.dfy`, `WorkerSelection.dfy`, `Names.dfy` | the registry of agent workers and the dispatch of jobs to them |
| `DataTrackStats.dfy` | loss accounting over 16-bit sequence numbers |
| `UserPacketDeduper.dfy` | the duplicate filter kept as a linked list inside a map |
| `Wrappers.dfy` | what the modules share |

Findings about the code that the proofs made precise:

- The subscribe-status callbacks are made outside the lock, the one with true by the reconciler and the
  one with false by a goroutine of its own, and each can be overtaken by one decided later for the same
  publisher: the callbacks can be true, true, false while the publisher is listed (`FalseIsOvertaken`),
  or false, true while it is not (`TrueIsOvertaken`).  They alternate exactly when each is made in turn,
  none while the opposite one, decided earlier, is outstanding (`CallbacksAlternateIffInTurn`); the
  decisions taken under the lock always do.
- A close landing between `addSubscriber` and `markSubscribedTo` leaves a stale entry in `subscribedTo`
  (`CloseBeforeMarkIsStale`); `MarkNeedsLiveTrack` gives the exact condition.  The subscribe step of the
  model does not split there.
- A remote offer that restarts ICE during gathering clears at once and is answered after gathering; when
  another description is sent meanwhile, local candidates leave before the answer the clear was for
  (`OvertakenHoldLeaks`).  They are held exactly when no description is sent meanwhile
  (`HoldsIffNothingOvertakes`), and one leaves too early exactly when it leaves while an offer is put off
  that is then answered (`LeaksIffAnsweredLate`).
- An answer refused for an unsupported codec sets the remote description but skips the pending
  candidates, so a later candidate overtakes them (`UnsupportedCodecReorders`), and a rejected pending
  candidate leaves those applied before it pending too.  Candidates are in order of arrival at every
  point of a run exactly when none is applied while a different one is pending and no such flush stops
  halfway (`OrderedIffNothingDisorders`); they are all applied as soon as there is a description exactly
  when no description leaves some waiting (`PromptIffNothingLeftWaiting`).
- A message that the room drops as a repeat has been cached before the check, so a joiner whose replay
  takes it from the cache is written it (`DroppedRepeatIsWritten`, exactly then by
  `DroppedIsWrittenIffReplayed`).
- A live message below a first sequence taken over from an earlier node is still written
  (`LiveBelowPreset`, exactly then by `BelowFirstIffBroadcastBelow`).
- A publisher handed over with last sequence zero has nothing to wait for on the new node
  (`NothingToWaitFor`).
- `CompareParticipant` can order three sessions in a circle exactly when, within one second, some have
  join milliseconds and others do not (`CyclicIffMixed`); otherwise it is a strict total order.
- The gate for participant updates looks at the participant's state only.  An update is admitted before
  the JoinResponse is written exactly when a visible one is offered to a participant that is active
  before that (`AdmitsEarlyIffOffersEarly`, and a run in `EarlyActivationOpensTheGate`).
- The JoinResponse records the versions it announces even over newer ones already admitted, after which
  admitted versions can decrease (`AnnouncementLowersVersion`); a recorded version falls below an admitted
  one exactly when an announced one does (`AheadIffNothingRegresses`).
- The data track statistics account for a stream exactly when no packet below the highest is repeated
  (`AccountsIffRepeatsHighestOnly`); such a repeat is counted as another packet and can hide a loss
  (`RepeatIsMiscounted`, `RepeatHidesLoss`).
- The comment at pkg/rtc/room.go:2266-2268 says that updates closed as STALE are skipped for clients
  that reconnect by identity; the code at pkg/rtc/room.go:2153-2155 skips DUPLICATE_IDENTITY only.
  The model follows the code.
- A random point of exactly zero lets the weighted choice return an available worker without spare
  capacity (`ZeroPointTakesFullWorker`): the worker chosen has some exactly when the point is positive or
  the worker visited first has some (`CapacityIffPositiveOrFirst`).

## Model

| member | source | states |
|---|---|---|
| SignalRelay.DeliversPrefix | pkg/routing/signal.go:191-381 | in every run of sink, unreliable stream and reader, what the channel holds is a gap-free, duplicate-free, in-order prefix of what `WriteMessage` accepted |
| SignalRelay.CleanCloseDeliversAll | pkg/routing/signal.go:191-223 | a reader ended by the close flag has delivered every message ever accepted, then and in every later state |
| SignalRelay.OneWriter | pkg/routing/signal.go:310-363 | there is at most one writer goroutine, exactly while `writing` is set |
| SignalRelay.GapStopsReader | pkg/routing/signal.go:233-252 | the reader reports a drop iff the packet starts beyond what it delivered, and nothing beyond the gap is ever delivered |
| SignalRelay.DeadlineDropIsVisible | pkg/routing/signal.go:310-363 | a queued message dropped at the deadline and in no arrived packet is never passed over: the reader stops before it and never ends as if everything had been delivered |
| SignalRelay.NoFalseDrops | pkg/routing/signal.go:310-363 | over an in-order stream without loss, however often sends fail and are resent, no drop is reported, and once all is handed over everything accepted is delivered |
| SignalDelivery.AcceptsIffOpen | pkg/routing/signal.go:365-381 | a message is accepted, as the next of the log, iff the stream is open and Close has not been called; a refused one changes nothing |
| SignalDelivery.StreamClosesIff | pkg/routing/signal.go:355-363 | in every run the stream is closed by its own failure, by a successful send of the close flag, or by a send that fails past the deadline while draining or closing on failure, and by nothing else |
| SignalDelivery.NothingUnattended | pkg/routing/signal.go:310-381 | in every run, while the stream is open, unacknowledged messages or a close still to be sent have exactly one writer |
| SignalDelivery.WriterGoesOn | pkg/routing/signal.go:315-353 | a writer that starts, or whose send returns before the deadline without having sent the close flag, goes on with a packet of exactly the unacknowledged messages, or ends when there is nothing to send |
| SignalDelivery.WriterEnds | pkg/routing/signal.go:325-363 | a send that fails past the deadline drops all that is unacknowledged, one that took the close flag acknowledges all; either ends the writer |
| SignalDelivery.HandDelivers | pkg/routing/signal.go:203-222 | a packet within reach advances what is delivered to its end as far as the channel takes it, and ends the reader by the close flag iff all of it went out |
| SignalDelivery.CanDeliverAll | pkg/routing/signal.go:310-381 | from every reachable state with an open stream and a reader not behind, the writer sending, the packet arriving and being handed over and the send succeeding deliver everything accepted, leave nothing to send, and end a draining stream |
| SignalEndpoints.SignalMessageSink.WriteMessage | pkg/routing/signal.go:365-381 | accepts and appends, or refuses on a closed or draining sink; says whether a writer starts |
| SignalEndpoints.SignalMessageSink.Close | pkg/routing/signal.go:282-304 | starts draining and starts a writer iff none runs |
| SignalEndpoints.SignalMessageSink.TakeBatch | pkg/routing/signal.go:310-322 | the packet sent next carries the whole queue under its base sequence, with the close flag iff draining, or the writer ends |
| SignalEndpoints.SignalMessageSink.SendReturned | pkg/routing/signal.go:324-363 | success acknowledges exactly the sent messages, failure keeps them, the deadline drops the queue while advancing the sequence |
| SignalEndpoints.SignalMessageReader.Read | pkg/routing/signal.go:233-252 | trims the messages already seen, or reports a gap without advancing |
| SignalEndpoints.MessageChannel.WriteMessage | pkg/routing/messagechannel.go:56-71 | takes the message behind all taken before, iff the channel is open and not full |
| SignalEndpoints.ReceiveAllFollowsLog | pkg/routing/signal.go:191-223 | any packets faithful to the log, in any order and however much the channel takes of each, make the reader hand over a prefix of it, and all of it on a close |
| SignalEndpoints.CopySignalStreamToMessageChannel | pkg/routing/signal.go:191-223 | while others read from the channel and may close it, the loop writes exactly what reading the packets one after the other yields and ends with that status; it is refused only by a full or closed channel |
| ReliableData.NoDuplicates | pkg/rtc/participant.go:3791-3822 | for every interleaving of caching, broadcast, replay and pruning, each sender's messages are written to the joiner in strictly increasing sequence |
| ReliableData.NoGaps | pkg/rtc/participant.go:3894-3910 | a joiner that can be written to has received every message owed to it, except those whose broadcast is still to come and those that expired from the cache before the replay, which there are none of without pruning |
| ReliableData.NothingUnowed | pkg/rtc/room.go:1888-1897 | only messages addressed to the joiner are written, and none before the first of its sender that was handed to it, unless that first sequence was taken over from an earlier node |
| ReliableData.BelowFirstIffBroadcastBelow | pkg/rtc/participant.go:1387-1391 | with any sequences taken over, a message below its sender's first is written iff one is broadcast to the joiner after the replay |
| ReliableData.LiveBelowPreset | pkg/rtc/participant.go:3791-3822 | a run in which that happens |
| ReliableData.FirstHandedIsOwed | pkg/rtc/participant.go:3791-3806 | the first broadcast that reaches the joiner fixes its sender's first sequence, and no later step moves it |
| ReliableDelivery.ListedAreServed | pkg/rtc/room.go:2110-2120 | once the joiner can be written to it has every message of others that lists nobody or the joiner, at or above the first owed, neither dropped nor expired, when its broadcast is over; one that lists only others it never has |
| ReliableDelivery.BroadcastHands | pkg/rtc/participant.go:3791-3822 | a broadcast fixes the first sequence and reaches a joiner that can be written to iff the joiner is in the room, is not the sender and is listed, or nobody is; otherwise nothing changes for it |
| ReliableDelivery.BroadcastReachesJoiner | pkg/rtc/participant.go:3894-3910 | in every run a message so broadcast is written once the joiner can be written to, unless it expired by the replay or lies below a sequence taken over |
| ReliableData.DroppedIsWrittenIffReplayed | pkg/rtc/room.go:1270-1286 | a message dropped as a repeat reaches the joiner iff the replay that brings it up takes the message from the cache |
| ReliableData.DroppedRepeatIsWritten | pkg/rtc/room.go:2076-2081 | a run in which that happens |
| ReliableData.ReplayWrites | pkg/rtc/room.go:1888-1897 | a joiner written nothing before is written exactly the cached messages at or after the first sequences and addressed to it |
| ReliableData.ReplayWritesInOrder | pkg/rtc/participant.go:3894-3910 | the replay writes those messages in cache order, behind what was written before |
| ReliableData.ReliableParticipant.SendDataMessage | pkg/rtc/participant.go:3791-3822 | before joining records the first sequence only; afterwards writes unless the replay already wrote that sequence |
| ReliableData.ReliableParticipant.ReplayJoiningReliableMessages | pkg/rtc/participant.go:3894-3910 | replays the cache, remembers each sender's last sequence and clears the first sequences |
| PublisherMigration.NeverRepeatsAcrossMigration | pkg/rtc/participant.go:2337-2392 | what the old node forwards followed by what the new node forwards is strictly increasing, for any arrival order and repetition on both |
| PublisherMigration.NeverRepeatsAcrossChain | pkg/rtc/participant.go:386 | the same when the old node's session was itself migrated in, and everything lies above where it began |
| PublisherMigration.ContinuesWithoutGap | pkg/rtc/migrationdatacache.go:36-55 | unless the wait times out, the new node's first forwarded sequence is the old node's last plus one, also when the old node's session was itself migrated in |
| PublisherMigration.NothingToWaitFor | pkg/rtc/participant.go:1613-1619 | after a handover of zero the first packet passes whatever its sequence; it continues without a gap iff that is one |
| PublisherMigration.ResendIsExact | pkg/rtc/participant.go:2337-2392 | after any packets that do not continue the sequence, a resend from the successor on is forwarded exactly, in order |
| MigrationDelivery.HeldUntilWaitEnds | pkg/rtc/migrationdatacache.go:36-55 | until the successor is received or a later packet finds the wait expired, nothing is forwarded and every packet above the last sequence is held back, in order |
| MigrationDelivery.ForwardsExactly | pkg/rtc/participant.go:2337-2392 | afterwards exactly those packets that are above the last sequence and above all before them are forwarded, in order: of all received if the wait was given up, of those from the successor on otherwise |
| MigrationDelivery.TimeoutForwardsHeld | pkg/rtc/participant.go:2345-2367 | packets held back in increasing order are all forwarded when the wait is given up |
| MigrationDelivery.ForwardsIffAbove | pkg/rtc/participant.go:2380-2392 | a session that waits for nothing forwards a packet, whatever the gap, iff it is above the last one and the session was not asked for its last sequence |
| PublisherMigration.MigrationDataCache.Add | pkg/rtc/migrationdatacache.go:36-55 | holds packets back until the expected one or the deadline |
| PublisherMigration.PublishingParticipant.CompleteMigration | pkg/rtc/participant.go:1613-1619 | installs a cache waiting for the successor of the last known sequence iff there is one, and changes nothing else |
| PublisherMigration.PublishingParticipant.GetLastReliableSequence | pkg/rtc/participant.go:4080-4085 | a migrate-out stops forwarding and answers the last forwarded sequence |
| PublisherMigration.PublishingParticipant.HandleReceivedDataMessage | pkg/rtc/participant.go:2380-2392 | forwards a sequence iff it is above the last one |
| PublisherMigration.PublishingParticipant.OnReceivedDataMessage | pkg/rtc/participant.go:2337-2378 | goes through the cache while one is installed, and forwards what it held back when the wait times out |
| Subscriptions.CountersAreExact | pkg/rtc/subscriptionmanager.go:726-739 | in every reachable state the audio and video counters equal the numbers of live tracks of that kind and respect the limits |
| Subscriptions.IndexIsExact | pkg/rtc/subscriptionmanager.go:1153-1189 | a publisher is in `subscribedTo` iff one of its tracks is live, with exactly its live tracks |
| Subscriptions.OneLiveTrackPerId | pkg/rtc/mediatracksubscriptions.go:94-126 | at most one published track holds a subscribed track of this subscriber under a track id, and it is the one the subscription holds |
| Subscriptions.DecisionsAlternate | pkg/rtc/subscriptionmanager.go:1153-1189 | per publisher the status changes decided under the lock alternate true, false, ..., and the last one says whether it is listed |
| Subscriptions.CallbacksAreDecided | pkg/rtc/subscriptionmanager.go:1165-1188 | every callback made was decided and none is made twice; the other decisions are outstanding, at most one of them with true |
| StatusCallbacks.CallbacksAlternateIffInTurn | pkg/rtc/subscriptionmanager.go:1165-1188 | in every run the callbacks made alternate per publisher iff none is made while the opposite one of its publisher, decided earlier, is outstanding |
| StatusCallbacks.LastCallbackIsCurrent | pkg/rtc/subscriptionmanager.go:1165-1188 | then the last callback says whether the publisher is listed, once none of that publisher is outstanding |
| StatusCallbacks.LastCallbackIsCurrentIff | pkg/rtc/subscriptionmanager.go:1165-1188 | in every run, once none of a publisher is outstanding, the last callback says whether it is listed iff it said so at the moment it was made |
| StatusCallbacks.FalseIsOvertaken | pkg/rtc/subscriptionmanager.go:1186-1188 | a run whose callbacks are true, true, false while the publisher is listed |
| StatusCallbacks.TrueIsOvertaken | pkg/rtc/subscriptionmanager.go:1165-1169 | a run whose callbacks are false, true while the publisher is not listed |
| Subscriptions.MarkNeedsLiveTrack | pkg/rtc/subscriptionmanager.go:795-799 | marking keeps the index exact iff the track is still live at that moment |
| Subscriptions.CloseBeforeMarkIsStale | pkg/rtc/subscriptionmanager.go:795-799 | a close completed between adding the subscriber and marking leaves an entry for a track that is gone |
| Subscriptions.SettlingStep | pkg/rtc/subscriptionmanager.go:482-589 | a reconcile, close or callback step under fixed fulfillable desires changes nothing or lowers the measure of what is left to do |
| Subscriptions.Progress | pkg/rtc/subscriptionmanager.go:467-480 | while the measure is positive, some step has an effect |
| Subscriptions.Converges | pkg/rtc/subscriptionmanager.go:467-589 | a run has at most as many effective steps as the measure, and where none has an effect any more the subscriptions are exactly the desired tracks, each open, including those desired again while closing, and every callback has been made |
| SubscriptionManagement.SubscriptionManager.SubscribeToTrack | pkg/rtc/subscriptionmanager.go:183-212 | creates the subscription if there is none and leaves it desired; keeps counters, index and status exact |
| SubscriptionManagement.SubscriptionManager.UnsubscribeFromTrack | pkg/rtc/subscriptionmanager.go:214-231 | leaves an existing subscription not desired; keeps counters, index and status exact |
| SubscriptionManagement.SubscriptionManager.Subscribe | pkg/rtc/subscriptionmanager.go:741-801 | the outcomes of an attempt in the order the code checks them, with the state each leaves |
| SubscriptionManagement.SubscriptionManager.AddSubscriber | pkg/rtc/subscriptionmanager.go:833-894 | counts and stores a new subscribed track, and nothing when the track already knows the subscriber |
| SubscriptionManagement.SubscriptionManager.ReconcileSubscription | pkg/rtc/subscriptionmanager.go:482-589 | subscribes, unsubscribes or cleans up as the subscription needs; keeps counters, index and status exact |
| SubscriptionManagement.SubscriptionManager.HandleSubscribedTrackClose | pkg/rtc/subscriptionmanager.go:961-1046 | forgets the track and uncounts it, and leaves it in no publisher's set; keeps counters, index and status exact |
| SubscriptionManagement.SubscriptionManager.HasCapacityForSubscription | pkg/rtc/subscriptionmanager.go:726-739 | answers iff there is no limit for the kind or fewer live tracks of it than the limit |
| SubscriptionManagement.SubscriptionManager.IsSubscribedTo | pkg/rtc/subscriptionmanager.go:362-368 | answers iff some track of the publisher is live |
| SubscriptionManagement.SubscribeMakesLive | pkg/rtc/subscriptionmanager.go:741-801 | an attempt succeeds iff it leaves the track live from the publisher found |
| SubscriptionOutcomes.OutcomeIff | pkg/rtc/subscriptionmanager.go:741-801 | each outcome of an attempt for a track not yet attached, iff: permissions, resolution, room for the kind known and for the kind found, and how AddSubscriber ends |
| SubscriptionOutcomes.OutcomeEffect | pkg/rtc/subscriptionmanager.go:833-894 | an attempt that subscribes opens, counts, attaches and lists the track and decides a callback for a publisher not listed; any other changes only what is known of the subscription |
| SubscriptionOutcomes.AttachedWithPermission | pkg/rtc/subscriptionmanager.go:783-797 | in every run a published track holds the subscriber only after an attempt made while the track was desired, with both permissions given |
| SubscriptionOutcomes.DesiredIff | pkg/rtc/subscriptionmanager.go:521-531 | a track is desired until that is withdrawn, its source is removed or it is not found past the timeout, and given up on no other ground |
| SubscriptionOutcomes.SubscriptionIff | pkg/rtc/subscriptionmanager.go:583-588 | a subscription is there from the first wish or settings on, and goes iff it is reconciled with nothing desired and nothing held |
| SubscriptionManagement.SubscriptionManager.MarkSubscribedTo | pkg/rtc/subscriptionmanager.go:1153-1170 | adds to the index and, with the publisher's first track, leaves a callback with true to be made after the unlock |
| SubscriptionManagement.SubscriptionManager.UnmarkSubscribedTo | pkg/rtc/subscriptionmanager.go:1172-1189 | takes out of the index and, with the publisher's last track, leaves a callback with false to a goroutine |
| SubscriptionManagement.SubscriptionManager.CallBack | pkg/rtc/subscriptionmanager.go:1165-1188 | one outstanding callback is made, once |
| Negotiation.NoRequestLost | pkg/rtc/transport.go:2548-2660 | in every run a negotiation requested after the latest created offer leaves the state at Retry, or the connection has failed or closed |
| Negotiation.NoRestartLost | pkg/rtc/transport.go:2918-2989 | an ICE restart asked for and not yet offered waits for gathering to end or for the next offer |
| Negotiation.AnswerCreatesOwedOffer | pkg/rtc/transport.go:2884-2916 | the answer that ends a Retry creates the owed offer in the same step, restarting ICE if that was put off to it |
| NegotiationProgress.OfferIsSent | pkg/rtc/transport.go:2548-2652 | an idle offerer whose calls succeed sends the offer and what was held back, or clears when the offer restarts ICE |
| NegotiationProgress.OfferIsPutOff | pkg/rtc/transport.go:2548-2565 | while an exchange is under way a requested offer is put off to its end and changes nothing else |
| NegotiationProgress.RestartIsSent | pkg/rtc/transport.go:2918-2989 | an ICE restart that can be done now clears and sends an offer that restarts ICE, after applying the last answer again if an exchange is under way |
| NegotiationProgress.AnswerIsSent | pkg/rtc/transport.go:2808-2882 | a remote offer not put off is set with all pending candidates and answered |
| NegotiationProgress.PutOffIsAnswered | pkg/rtc/transport.go:2318-2338 | an offer put off is answered when gathering ends |
| NegotiationProgress.FailsIffMisplaced | pkg/rtc/transport.go:2278-2302 | where every call succeeds negotiation fails iff an answer comes without an offer, an offer while one is outstanding, a restart can neither be done nor put off, or an exchange takes too long |
| NegotiationProgress.ClosesOnly | pkg/rtc/transport.go:2278-2302 | where every call succeeds a connection is closed by Close only |
| NegotiationProgress.ClearsIff | pkg/rtc/transport.go:2845-2853 | a step clears the candidates held back iff it begins an offer that restarts ICE or receives such a remote offer with none put off |
| Negotiation.OneOfferAtATime | pkg/rtc/transport.go:2548-2652 | no offer is created while one is unanswered, except by recovery in an ICE restart; after a clear for an ICE restart no local candidate leaves before some description is sent |
| LocalCandidates.HoldsIffNothingOvertakes | pkg/rtc/transport.go:2845-2853 | in every run local candidates are held at every point at which a restart offer is put off iff no other description is completed while one is put off |
| LocalCandidates.HeldUntilItsDescription | pkg/rtc/transport.go:2340-2363 | then no local candidate leaves between a clear for an ICE restart and the offer or answer that clear was made for |
| LocalCandidates.LeaksIffAnsweredLate | pkg/rtc/transport.go:2304-2363 | in every run a local candidate leaves between a clear for an ICE restart and the offer or answer that clear was made for iff one leaves while a restart offer is put off and that offer is then answered |
| LocalCandidates.BrokenHoldLeaks | pkg/rtc/transport.go:2322-2337 | once an answerer's hold is gone, the next candidate leaves before the answer its clear was made for |
| LocalCandidates.StepGuarded | pkg/rtc/transport.go:2340-2392 | while an offer stays put off, whether a step completes another description and whether a local candidate leaves is known from the state, the event and how its calls end |
| LocalDelivery.NoneLost | pkg/rtc/transport.go:2340-2392 | in every run whose candidate writes succeed, those that left since the latest clear followed by those held back are exactly the unfiltered ones met since then, in order |
| LocalDelivery.CompletedEndsHold | pkg/rtc/transport.go:2340-2357 | a step that completes a description leaves nothing held back |
| LocalDelivery.DescriptionReleases | pkg/rtc/transport.go:2340-2357 | what was held back follows the description in order, as far as its writes succeed |
| LocalCandidates.OvertakenHoldLeaks | pkg/rtc/transport.go:2322-2337 | a run that does it: after a first exchange, the answer to an offer that restarts nothing ends the hold of a restart offer that was put off |
| Negotiation.OffersAndAnswersAlternate | pkg/rtc/transport.go:2884-2916 | without ICE restarts there is an applied answer between any two created offers, as section 4 of RFC 3264 asks |
| RemoteCandidates.OrderedIffNothingDisorders | pkg/rtc/transport.go:2394-2429 | in every run the candidates applied are at every point the first that were not refused, in arrival order and each once, with the others waiting in order, iff none is applied while a different one is pending and no flush of pending candidates stops after the first |
| RemoteCandidates.PromptIffNothingLeftWaiting | pkg/rtc/transport.go:2688-2732 | and all of them are applied from the moment there is a remote description, none before, iff no description is set that leaves some pending |
| RemoteCandidates.RemoteDescriptionKeepsOrder | pkg/rtc/transport.go:2688-2732 | setting a remote description keeps the order iff its flush does not stop among the pending candidates, and leaves none waiting iff it applies them all, there are none, or it is not set |
| RemoteCandidates.AcceptedAreArrived | pkg/rtc/transport.go:2414-2425 | the candidates not refused are those that arrived with some left out, and all of them when none is refused |
| RemoteCandidates.CandidatesInArrivalOrder | pkg/rtc/transport.go:2394-2429 | when no candidate is refused and no description leaves some waiting, the filtered-in candidates are applied in arrival order, each once, never before a remote description |
| RemoteCandidates.AppliedIsSubsequence | pkg/rtc/transport.go:2414-2425 | whatever candidates are refused or cannot be parsed, where nothing disorders them those applied and waiting are the arrived ones in order with some left out |
| RemoteCandidates.UnsupportedCodecReorders | pkg/rtc/transport.go:2688-2732 | a concrete run in which a later candidate overtakes pending ones |
| RemoteCandidates.LeftWaitingIsNoDisorder | pkg/rtc/transport.go:2894-2905 | a run in which candidates are left waiting and the next answer applies them in order |
| PeerTransport.PCTransport.CreateAndSendOffer | pkg/rtc/transport.go:2548-2652 | creates an offer when idle, moves to Retry while one is unanswered, uses up the reasons to restart ICE |
| PeerTransport.PCTransport.SetRemoteDescription | pkg/rtc/transport.go:2688-2732 | applies the description and then the pending candidates, with the errors that skip or stop that |
| PeerTransport.PCTransport.HandleRemoteAnswerReceived | pkg/rtc/transport.go:2884-2916 | ends the exchange and sends the owed offer if the state was Retry |
| PeerTransport.PCTransport.DoICERestart | pkg/rtc/transport.go:2918-2989 | restarts now, after gathering, or at the next offer, depending on the gathering and signaling state |
| PeerTransport.PCTransport.HandleLocalICECandidate | pkg/rtc/transport.go:2365-2392 | caches a local candidate until the description is sent, or sends it |
| PeerTransport.PCTransport.HandleRemoteICECandidate | pkg/rtc/transport.go:2394-2429 | holds a remote candidate back until there is a remote description, or applies it |
| PeerTransport.PCTransport.LocalDescriptionSent | pkg/rtc/transport.go:2340-2357 | the cached candidates follow the description in order, up to the first failed send |
| PeerTransport.PCTransport.HandleRemoteOfferReceived | pkg/rtc/transport.go:2808-2882 | clears for a restart unless one is put off, puts it off during gathering, and otherwise sets and answers it |
| PeerTransport.PCTransport.HandleICEGatheringComplete | pkg/rtc/transport.go:2304-2338 | an offerer makes up for a restart put off, an answerer answers the offer put off |
| PeerTransport.PCTransport.CreateAndSendAnswer | pkg/rtc/transport.go:2734-2806 | the answer and what was held back for it, with the errors that stop in between |
| PeerTransport.PCTransport.ProcessEvent | pkg/rtc/transport.go:2278-2302 | handling one queued event is one step of the runs, and keeps requests remembered, offers and candidates ordered and exchanges numbered |
| TrackSettings.SettlesOnCurrentSettings | pkg/rtc/subscribedtrack.go:305-381 | once every scheduled apply has begun and all have ended, the down track is muted iff the current settings say disabled and otherwise has the layers computed from them |
| TrackSettings.SupersededNeverWins | pkg/rtc/subscribedtrack.go:330-381 | once a later apply has begun an apply never changes anything when it ends, whatever happens in between |
| TrackSettings.TornReadShowsUntilApplied | pkg/rtc/subscribedtrack.go:341-356 | before the next apply, an apply that read around a change may set the spatial layer of the old quality with the temporal layer of the new frame rate |
| TrackSettings.UpdateApplies | pkg/rtc/subscribedtrack.go:305-324 | settings are stored and, unless equal, applied, at once iff that is asked for or they unmute |
| TrackSettings.BindApplies | pkg/rtc/subscribedtrack.go:188-229 | the settings of a bound video track: the default quality, or those it has, enabled for an adaptive stream |
| TrackSettings.SubscribedTrack.UpdateSubscriberSettings | pkg/rtc/subscribedtrack.go:305-324 | stores changed settings and applies them at once when immediate or when they unmute |
| TrackSettings.SubscribedTrack.Bound | pkg/rtc/subscribedtrack.go:188-229 | binding sets initial settings, or enables those of an adaptive stream, and applies them for video |
| TrackSettings.SubscribedTrack.ApplySettings | pkg/rtc/subscribedtrack.go:330-381 | an apply that nothing interrupts is the four steps of one in the runs and leaves the down track as the settings say |
| TrackSettings.SubscribedTrack.BeginApply | pkg/rtc/subscribedtrack.go:331-339 | takes the next version, or nothing without settings |
| TrackSettings.SubscribedTrack.FinishApply | pkg/rtc/subscribedtrack.go:358-381 | takes effect only under the current version |
| JoinUpdates.NothingBeforeJoinResponse | pkg/rtc/participant_signal.go:42-75 | where no visible update is offered to a non-migrating participant that is active before its JoinResponse is written, no update is admitted before that |
| JoinUpdates.ActiveAfterJoinIsTimely | pkg/rtc/participant.go:548-559 | a client that becomes active only after its JoinResponse is written meets that condition |
| JoinUpdates.AdmitsEarlyIffOffersEarly | pkg/rtc/participant_signal.go:77-125 | in every run of a non-migrating participant, something is admitted before the JoinResponse is written iff a visible update is offered while it is active before that |
| JoinUpdates.EarlyActivationOpensTheGate | pkg/rtc/participant.go:548-559 | a run in which that happens |
| JoinUpdates.AheadIffNothingRegresses | pkg/rtc/participant_signal.go:42-53 | in every run no recorded version is below an admitted one at any point iff no JoinResponse announces a version below one already admitted of that participant |
| JoinUpdates.VersionsNeverDecrease | pkg/rtc/participant_signal.go:77-125 | then the versions admitted of one participant never decrease, early offers or not |
| JoinUpdates.TimelyNeverRegresses | pkg/rtc/participant_signal.go:42-75 | runs without a visible update offered to an active participant before its JoinResponse is written are such, and so are those of a migrating one |
| JoinUpdates.NextMayDecreaseIff | pkg/rtc/participant_signal.go:93-106 | in any run with a ready participant whose admitted versions have not decreased yet, some next update makes them decrease iff a recorded version is below an admitted one |
| JoinUpdates.AnnouncementLowersVersion | pkg/rtc/participant_signal.go:42-53 | a run in which the announcement makes the versions 5 and then 4 of one participant admitted |
| JoinUpdates.NeverBelowAnnounced | pkg/rtc/participant_signal.go:77-125 | what is admitted after the announcement is never below the announced version |
| JoinUpdates.EveryOfferIsAccounted | pkg/rtc/participant_signal.go:77-125 | in every run, while connected, every update ever offered is admitted, waiting, hidden, or overtaken by one admitted or announced |
| JoinUpdates.NothingStaysQueued | pkg/rtc/participant_signal.go:62-75 | in every run nothing waits once SendJoinResponse is through, or ever when migrating |
| JoinUpdates.NoHiddenIsAdmitted | pkg/rtc/participant_signal.go:106-109 | no update of a hidden participant is admitted, except the participant's own |
| JoinUpdates.PhaseAfter | pkg/rtc/participant_signal.go:62-66 | the state moves forward only: to Joined after the JoinResponse while joining, to Active, and from any state to Disconnected |
| JoinUpdates.Signalling.BeginJoin | pkg/rtc/participant_signal.go:42-53 | records the version of every announced participant |
| JoinUpdates.Signalling.FinishJoin | pkg/rtc/participant_signal.go:55-75 | opens the gate and takes the queue, or leaves both alone on a write error |
| JoinUpdates.Signalling.SendUpdate | pkg/rtc/participant_signal.go:77-125 | drops when disconnected, queues before ready, and otherwise admits in order what is neither outdated nor hidden |
| IceTrickle.SentAsExpected | pkg/rtc/participant_signal.go:217-227 | for any interleaving of calls, each target is sent each candidate that has a successor, in order, flagged final iff the successor is nil |
| IceTrickle.FinalFlagOnLastOnly | pkg/rtc/participant_signal.go:217-227 | c1 .. cn and nil come out as c1 .. cn in order with the final flag on cn only |
| IceTrickle.IceQueue.SendICECandidate | pkg/rtc/participant_signal.go:217-227 | swaps the slot of the target and sends what it held |
| ParticipantUpdates.CyclicIffMixed | pkg/rtc/room.go:2163-2190 | three join times allow a circular order for some sids iff, in one second, one lacks milliseconds and the two others differ in them |
| ParticipantUpdates.CompareIsAntisymmetric | pkg/rtc/room.go:2163-2190 | swapping the arguments swaps the answer, and only equal sids compare equal |
| ParticipantUpdates.OlderIff | pkg/rtc/room.go:2163-2190 | the later join time is the newer session, by second, then by millisecond where both have one, then by sid |
| ParticipantUpdates.OlderTransitive | pkg/rtc/room.go:2163-2190 | with milliseconds set on all three sessions or on none, older than is transitive |
| ParticipantUpdates.OlderIsTotal | pkg/rtc/room.go:2163-2190 | older than is irreflexive and asymmetric, and with milliseconds set on both or neither leaves only equal sessions undecided |
| ParticipantUpdates.NewestExists | pkg/rtc/room.go:2163-2190 | with milliseconds set on all sessions or on none, any sessions have a newest one |
| ParticipantUpdates.NewestSessionWins | pkg/rtc/room.go:2204-2257 | once an update of the newest session is accepted, and while the room's participant is that session, nothing of an older session is queued or handed out |
| ParticipantUpdates.AcceptedReachesOutput | pkg/rtc/room.go:2204-2257 | every accepted update is handed out or queued, itself or in a later version of its session |
| ParticipantUpdates.OutputIsAccounted | pkg/rtc/room.go:2225-2233 | every update handed out was accepted; a synthesized disconnect is directly followed by the newer session that caused it |
| ParticipantUpdates.DroppedOnlyIfStale | pkg/rtc/room.go:2216-2246 | a dropped update is older than an accepted version of its session, an accepted session or the room's participant |
| ParticipantUpdates.AcceptedIff | pkg/rtc/room.go:2216-2246 | an update is accepted iff it is not behind the queued one of its session, or its session is newer than the queued one, or with nothing queued not older than the room's participant; a dropped one changes nothing |
| ParticipantUpdates.NewSessionEndsOlder | pkg/rtc/room.go:2225-2233 | when a newer session takes over from a queued one, the older is handed out as disconnected and marked so, and the newer right behind it |
| ParticipantUpdates.AcceptedGoesOutOrWaits | pkg/rtc/room.go:2248-2256 | immediate, publisher and session-changing updates go out last and empty the queue; others wait and nothing goes out |
| ParticipantUpdates.UpdateQueue.PushAndDequeueUpdates | pkg/rtc/room.go:2204-2257 | returns and leaves queued what the step function says for the identity, and leaves other identities alone |
| ParticipantUpdates.UpdateQueue.TakeBatch | pkg/rtc/room.go:1594-1604 | the tick takes the whole queue |
| BatchChunking.ChunkProtoBatch | pkg/rtc/utils.go:176-194 | the chunks concatenate to the batch, are not empty, fit the target or hold one oversized message, and each is full: the next message would not have fitted |
| BatchChunking.ChunkingIsUnique | pkg/rtc/utils.go:176-194 | those properties leave exactly one chunking of a batch |
| BatchChunking.SendParticipantUpdates | pkg/rtc/room.go:2259-2298 | every participant is sent, in order and in fitting chunks, the updates it wants, all of them unless a send fails |
| BatchChunking.WantedByIdentity | pkg/rtc/room.go:2264-2285 | a client that reconnects by identity is sent the same updates without exactly the skipped ones |
| AgentRegistry.DerivedEqualsRecomputed | pkg/service/agentservice.go:254-373 | after any registrations and deregistrations the key counters and the sorted name lists equal those recomputed from the keys with workers |
| AgentRegistry.CheckEnabledIsExact | pkg/service/agentservice.go:473-486 | the answer lists exactly the distinct namespaces and agent names of the live workers, sorted, and exactly the job types that have one |
| AgentRegistry.AnswerIsOfTheLiveWorkers | pkg/service/agentservice.go:473-486 | two histories that leave the same workers live give the same answer |
| AgentRegistry.OnceLiveIsDistinct | pkg/service/agentservice.go:233-252 | where no worker is registered twice at a time, no list holds one twice |
| AgentRegistry.AgentHandler.RegisterWorker | pkg/service/agentservice.go:254-316 | appends the worker, and for the first of its key counts the key and inserts its names, unless the topic cannot be registered |
| AgentRegistry.AgentHandler.DeregisterWorker | pkg/service/agentservice.go:318-373 | removes one occurrence of the worker, and with the last of its key the key, its count and one occurrence of each name |
| AgentRegistry.AgentHandler.CheckEnabled | pkg/service/agentservice.go:473-486 | the compacted lists and which counters are not zero |
| Names.SortedIsUnique | pkg/service/agentservice.go:294-297 | a sorted list is determined by how often each name occurs in it |
| Names.LessIff | pkg/service/agentservice.go:294-297 | a string is less iff it is a proper prefix or has the lesser character at the first difference |
| WorkerSelection.SelectWorkerWeightedByLoad | pkg/service/agentservice.go:504-533 | an error iff no candidate has spare capacity; otherwise the candidate in whose stretch of the summed weights the random point falls, for any visiting order, with spare capacity iff the point is positive or the first visited has some; the fallback is not reached |
| WorkerSelection.CapacityIffPositiveOrFirst | pkg/service/agentservice.go:526-531 | along any order of the candidates a point below the sum is used up, by a worker with spare capacity iff the point is positive or the first in the order has some |
| WorkerSelection.TakenIffInStretch | pkg/service/agentservice.go:513-531 | along any order a worker is taken iff the point falls in its stretch, which is as long as its spare capacity and follows those before it; the first also for zero |
| WorkerSelection.ZeroPointTakesFullWorker | pkg/service/agentservice.go:526-531 | with loads 1 and 0 the point zero takes the full worker visited first |
| WorkerSelection.ScaledIsDraw | pkg/service/agentservice.go:526 | a random number below one times the sum is a point below the sum |
| WorkerSelection.TotalOfPermutation | pkg/service/agentservice.go:527-531 | the sum of the weights does not depend on the order the map is visited in |
| WorkerSelection.JobDispatcher.JobRequest | pkg/service/agentservice.go:383-434 | the retry loop ends within the number of workers, never asks one twice, asks only available ones, retries only after a retriable refusal, and gives up only when no unasked worker has capacity |
| DataTrackStats.ReceivedPlusLostIsSpan | pkg/rtc/datatrack_stats.go:50-87 | in every stream in range that repeats at most the highest packet, across wraparound, packets received plus packets counted lost equals the unwrapped span, and those counted lost are as many as are missing |
| DataTrackStats.AccountsIffRepeatsHighestOnly | pkg/rtc/datatrack_stats.go:50-87 | the statistics account for a stream in range at every point iff no packet below the highest is repeated |
| DataTrackStats.NextIsAccountedIff | pkg/rtc/datatrack_stats.go:65-82 | one more packet in range keeps the account iff it is new or repeats the highest |
| DataTrackStats.GuardNeverFires | pkg/rtc/datatrack_stats.go:70-75 | when an unreceived packet is out of order the count of lost packets is positive |
| DataTrackStats.OtherCountersAreExact | pkg/rtc/datatrack_stats.go:50-87 | in every stream in range all bytes are counted, the packets out of order are those below the highest before them, and frames are counted with their last packet unless it repeats the highest |
| DataTrackStats.EndedCountsBytesOnly | pkg/rtc/datatrack_stats.go:54-58 | an ended track counts bytes only |
| DataTrackStats.RepeatHidesLoss | pkg/rtc/datatrack_stats.go:70-75 | a concrete stream in which a repeat makes up for a packet that is missing |
| DataTrackStats.RepeatIsMiscounted | pkg/rtc/datatrack_stats.go:50-87 | a concrete stream in which a repeated packet breaks the account |
| DataTrackStats.DataTrackStatistics.Update | pkg/rtc/datatrack_stats.go:50-87 | the fields after a packet, in 16-bit arithmetic |
| UserPacketDeduper.ListIsRecent | pkg/rtc/user_packet_deduper.go:41-66 | for every sequence of ids the links from `tail` form a chain without repetition ending at `head` that holds exactly the recent accepted ids |
| UserPacketDeduper.DuplicateIffRecent | pkg/rtc/user_packet_deduper.go:41-66 | an id is a duplicate iff it is among the 100 most recently accepted, the zero id counting as the first |
| UserPacketDeduper.CaughtWithinWindow | pkg/rtc/user_packet_deduper.go:41-66 | an id just accepted is caught while fewer than 100 others have been accepted since, and no longer once 100 have been |
| UserPacketDeduper.Deduper.IsDuplicate | pkg/rtc/user_packet_deduper.go:41-66 | the new links and the answer, and false for bytes that are no id |

## Left out

- Transport of signal messages over psrpc, redis and websockets: a packet may arrive any number of times or never, whatever the send reports, and `StreamFails` may happen at any time.
- Real time: deadlines, retries and debounced calls are flags or events that may occur at any moment; latency is not bounded, and `CanDeliverAll` says that delivery is possible, not when it happens.
- Sequence wrap-around of the relay (64 bits) and of offer ids (32 bits): these numbers are unbounded in the model. The 16-bit and 32-bit sequences of data packets are modelled with their width where the code wraps them.
- Logging, telemetry, metrics, reporters and debug information.
- Destination sids of data messages: messages are addressed by identity, as the cache of the room records no sids (pkg/rtc/room.go:1277-1282).
- When the message cache of the room is pruned: any prefix of it may expire at any moment.
- The interval between `addSubscriber` and `markSubscribedTo`: subscribing up to the unlock in the latter is one step; `MarkNeedsLiveTrack` says when the interval matters.
- Which of several goroutines with the same callback to make runs first: they are interchangeable, and the oldest one stands for any of them.
- One-shot signalling and synchronous subscribe paths, which bypass the limits and the reconciler; data track subscriptions, which share the `subscribedTo` index.
- Subscription objects and published tracks as objects of their own: they are values in a map and in a set of attached tracks, so aliasing between goroutines holding one subscription is not captured.
- Notifiers, bind callbacks and the retry schedule of the reconciler.
- Session descriptions, the ICE agent and DTLS: reduced to whether descriptions are set, gathering is going on, and the outcome of each call, which is arbitrary.
- ICE credentials: whether a remote offer restarts ICE is given with the event, though the first offer of a connection never does (pkg/rtc/transport.go:2684).
- The timer that restarts the signal state, and data channels of a peer connection.
- TrackSettings.SettlesOnCurrentSettings: when the frame rate of the settings returns to zero the code leaves the temporal layer as it was, so nothing is stated of it in that case.
- Dummy receivers and the upgrade of a receiver.
- Eviction from the LRU cache of update versions: the cache is unbounded.
- The write of participant updates to the signal connection, which is outside `updateLock`: order is that of admission.
- ParticipantUpdates.NewestSessionWins: while the room's participant is the newest session; the room's map of participants is a parameter of each push.
- The running jobs of a worker, the joined topic names of agents and job termination.
- WorkerSelection.SelectWorkerWeightedByLoad: loads are exact reals and each worker is listed once; then the final `return workers[0]` is unreachable. Float rounding could reach it.
- WorkerSelection.JobDispatcher.JobRequest: the workers offered over all attempts come from one finite set; new workers arriving for ever could keep the loop going.
- The ring buffer of data track reports, and arrival statistics other than the counters.
- Marshalled size of a message: a function of the message.
