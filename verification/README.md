# Verified model of the Basis client core

The Basis load client speaks a LiteNetLib-style protocol: reliable channels with wrapping sequence
numbers and a windowed acknowledgement map, fragments, merged datagrams, avatar frames and deltas,
storage requests. This project models the parts of it that are hard to get right and proves what
they promise, for every input and over every run. To verify: `dafny verify dfyconfig.toml`.

Where the source updates things in place the model is a class or a method with loops, proved
against a function on values; concurrent parts are state machines whose steps interleave freely.
The theorems are about those functions and machines.

## The parts

**Reliable channel.** `Sequences` compares 15-bit sequences with unbounded packet numbers.
`WindowSender` and `WindowReceiver` are the two halves of the C# channel on values,
`ReliableChannel` is the channel itself with its arrays and its acknowledgement bytes (`AckBits`),
`QueueSender` is one channel of the Rust client's sender and `ReliableQueue` its shared queue of 256
channels, `ReceiveWindow` the Rust client's receive window. `Protocol` is the same protocol over
unbounded numbers; the three `...Refinement` modules prove that the wrapping code does what it does.
`ChannelSystem` puts either sender and the receiver at the ends of a network that loses, duplicates
and reorders copies at will, and `ChannelTheorems` proves delivery, acknowledgement and progress for
every run. The one assumption is a bound on how long a copy lives, measured in packets: a data copy
is not delivered once the receive window is more than 32768 - 256 past it, an acknowledgement not
once the send window is 32768 past its start. Both are weaker than half the sequence space, and
`LifetimeBoundIsTight` and `AckLifetimeIsTight` show that neither can be weakened. `ClientChannel`
puts the Rust client's window in the place of the C# receiver and shows that the rest cannot tell.

**Messages.** `Fragments` cuts messages up and puts them together again. `Messages` is about a
reassembler behind an ordered channel, such as the C# receiver's, which gets the packets in the order
they were sent. The Rust client has no such order: it dispatches packets as they arrive, on all its
channels, into one reassembler; `ClientMessages` says exactly what it then gets, and `ClientTheorems`
follows messages from the sender through every run of a channel to the client.

**Avatar observer.** `ObserverSequences` tracks frame order from one byte, `AvatarObservers` keeps
the baselines deltas are decoded against, `ObserverSessions` leases the observer to one client at a
time. `ObserverTheorems` runs the three together over every interleaving of events.

**Storage.** `Persistence` is the Set/Get chain machine with its accounts, `Histograms` the latency
histogram and its percentiles.

**Datagrams.** `Framing` has the Merged and CompactMerged formats with both parsers of each,
`Handoff` the shared receiver's path from socket to client, `Channels` the channel numbers, `Ogg` the
voice tools' multiplexer and demultiplexer.

**Avatar uplink.** `Bits` and `BitPacking` pack numbers into bytes, `DeltaCodec` builds and applies
avatar deltas, `AvatarLayout` is the payload layout at the four qualities, `AvatarUplink` decides
between full frames and deltas and follows them to a receiver. `Reconnect` is the backoff of failed
clients.

## Findings

- The C# and the Rust comparison of sequences differ exactly for pairs that are 16384 apart
  downward (`RelativesAgree`); no window test can tell (`RelativesGiveSameVerdicts`).
- The Rust client does not restore the order of a reliable ordered channel: it dispatches packets as
  they arrive, so a short message can overtake the fragments of one sent before it
  (`OvertakingBreaksPrefix`). On a channel it gets a prefix of what was sent exactly when the messages
  are completed in sending order (`PrefixIffCompletedInOrder`).
- A message of more than 128 fragments is sent by the Rust client but refused, fragment by fragment,
  by its own reassembler, and a pause of more than ten seconds between two fragments of an open
  message makes it refuse the next fragment of any message (`FragmentStep`), upon which it gives up
  its connection. A receiver that went on would skip the message (`SkippingBreaksPrefix`).
- The avatar uplink is exact for constant metadata, but not when deltas are forbidden and allowed
  again: full frames sent in between are not recorded as keyframes, and the next delta names one the
  receiver no longer holds (`TogglingBreaksExactness`). `ExactIffFaithful` says exactly which calls
  keep it exact; asking for a keyframe whenever deltas are allowed again is enough
  (`ReceiverShowsSender`). The server notices such a delta and asks for a keyframe, at most once a
  second (`LostDeltaIsNoticed`), and the first datagram after a request makes it exact again
  (`RequestRestores`). After 256 unrecorded frames the sequence comes round, and the delta is applied
  to the wrong frame unnoticed (`AliasIsReached`).
- The shared receiver drops packets that open or end a connection when they come inside a merged
  datagram, where the client's own parser acts on them (`MergedControlIsLost`).
- The async parsers stop at the first entry whose dispatch fails and then do not report a malformed
  remainder, which the shared parsers do; otherwise they agree on every byte string.
- `ogg_packets` drops audio packets that happen to begin like an Opus header; the round trip is
  exact if and only if there is none.

## Model

| member | source | states |
|---|---|---|
| `Sequences.RelativeIsDifference` | scripts/interop/Stubs.cs:36-41 | within half the sequence space the modular comparison is the true difference of packet numbers |
| `Sequences.RelativeOfLate` | scripts/interop/Stubs.cs:36-41 | beyond it, a number up to a whole space behind reads as one ahead |
| `Sequences.RelativesAgree` | BasisRustServer/crates/basis-transport/src/lib.rs:6370-6381 | the C# and Rust comparisons agree on every pair except those exactly 16384 apart downward |
| `Sequences.RelativesGiveSameVerdicts` | BasisRustServer/crates/basis-transport/src/lib.rs:6370-6381 | the difference changes no window test |
| `AckBits.AckMap.Set` | scripts/interop/ReliableChannel.cs:302-314 | setting a bit of the acknowledgement bytes sets that bit of the map and no other |
| `AckBits.AckMap.Clear` | scripts/interop/ReliableChannel.cs:288-295 | clearing one clears that bit and no other |
| `ReliableChannel.Channel.ProcessAck` | scripts/interop/ReliableChannel.cs:105-172 | the loop over the pending slots in place is the value specification, leaves the receiving half alone, and keeps the window valid whatever the acknowledgement says |
| `ReliableChannel.Channel.SendNextPackets` | scripts/interop/ReliableChannel.cs:174-235 | flushes an owed acknowledgement, numbers what fits the window, sends what is due, reports whether anything is left, and leaves the window valid |
| `ReliableChannel.Channel.ProcessPacket` | scripts/interop/ReliableChannel.cs:237-360 | an acknowledgement goes to the sending half, a data packet to the receiving half: the new state of both, and whether the packet was new |
| `WindowSender.ProcessAckKeepsValid` | scripts/interop/ReliableChannel.cs:105-172 | any acknowledgement, forged or not, leaves at most 128 numbers in flight and only ever shrinks the window |
| `WindowSender.SendNextKeepsValid` | scripts/interop/ReliableChannel.cs:174-235 | numbering widens the window by exactly the packets admitted and never beyond 128 |
| `WindowSenderRefinement.ScanAcksClears` | scripts/interop/ReliableChannel.cs:132-170 | the scan clears exactly the numbers whose bit is set and moves the window start past exactly the leading run of them |
| `WindowSenderRefinement.AckConsidered` | scripts/interop/ReliableChannel.cs:114-127 | for acknowledgements up to a whole sequence space old, exactly which are looked at |
| `WindowSenderRefinement.ProcessAckRefines` | scripts/interop/ReliableChannel.cs:105-172 | processing any emitted acknowledgement, however stale, is the unbounded protocol's step |
| `WindowSenderRefinement.AckLifetimeIsTight` | scripts/interop/ReliableChannel.cs:114-170 | an acknowledgement a whole sequence space old is read as a present one, and the oldest packet is given up whether it was accepted or not |
| `WindowSenderRefinement.SendNextRefines` | scripts/interop/ReliableChannel.cs:174-235 | sending is the unbounded protocol's step, and only outstanding packets go out, each under its own number |
| `WindowReceiverRefinement.LateCopyAliases` | scripts/interop/ReliableChannel.cs:252-273 | exactly which late copies pass the three drop tests |
| `WindowReceiverRefinement.LifetimeBoundIsTight` | scripts/interop/ReliableChannel.cs:252-273 | one packet beyond the lifetime bound a receiver accepts again, as new, a packet it already accepted |
| `WindowReceiverRefinement.FreshCopyDropped` | scripts/interop/ReliableChannel.cs:252-273 | a copy within it is dropped if and only if it lies below the window |
| `WindowReceiverRefinement.DrainHeldReleases` | scripts/interop/ReliableChannel.cs:326-336 | draining delivers the held run in order and stops at the first gap |
| `WindowReceiverRefinement.ReceiveRefines` | scripts/interop/ReliableChannel.cs:245-360 | receiving is the unbounded protocol's step in both modes; new means not accepted before |
| `WindowReceiverRefinement.AcknowledgementEncodes` | scripts/interop/ReliableChannel.cs:279-315 | the acknowledgement bytes say exactly which numbers of the window were accepted |
| `Protocol.OutstandingIsWelcome` | scripts/interop/ReliableChannel.cs:252-317 | the receive window never passes the send window, and outstanding numbers are at most 255 ahead of it |
| `Protocol.HearAckKeepsSound` | scripts/interop/ReliableChannel.cs:105-172 | any acknowledgement in flight, in any order, keeps the sender's knowledge a stage of what was accepted |
| `Protocol.StaleAckIsIgnored` | scripts/interop/ReliableChannel.cs:114-127 | an acknowledgement no newer than the newest processed changes nothing |
| `Protocol.BelowFloorIsAccepted` | scripts/interop/ReliableChannel.cs:279-296 | the receive window never slides over a number that was not accepted |
| `QueueSenderRefinement.OldestIsBase` | BasisRustClient/crates/basis-client-core/src/client.rs:1289-1343 | the oldest sequenced record of a channel is the window start of the C# sender |
| `QueueSenderRefinement.ProcessAckRefines` | BasisRustClient/crates/basis-client-core/src/client.rs:1289-1343 | the queue sender releases exactly what the unbounded protocol releases |
| `QueueSenderRefinement.CapacityIsWindowRoom` | BasisRustClient/crates/basis-client-core/src/client.rs:465-523 | the capacity it computes is the room left in the 128-wide window |
| `QueueSenderRefinement.PromoteRefines` | BasisRustClient/crates/basis-client-core/src/client.rs:465-553 | late numbering follows queue order inside the window, and what is sent are the packets newly numbered |
| `QueueSenderRefinement.ResendRefines` | BasisRustClient/crates/basis-client-core/src/client.rs:1380-1408 | only outstanding packets are resent, and nothing but their times changes |
| `ReliableQueue.PendingReliable.Extend` | BasisRustClient/crates/basis-client-core/src/client.rs:555-615 | new packets join the end of their own channel; every other channel is unchanged |
| `ReliableQueue.PendingReliable.Promote` | BasisRustClient/crates/basis-client-core/src/client.rs:465-523 | the single pass over the shared queue numbers every channel as if it were alone |
| `ReliableQueue.PendingReliable.ProcessAck` | BasisRustClient/crates/basis-client-core/src/client.rs:1289-1343 | an acknowledgement changes its own channel as specified and no record of another |
| `ReliableQueue.PendingReliable.Resend` | BasisRustClient/crates/basis-client-core/src/client.rs:1380-1408 | per channel, the due records are sent and stamped |
| `ReceiveWindow.Mark` | BasisRustClient/crates/basis-client-core/src/transport.rs:297-334 | the loop of `mark_new` is its value specification |
| `ReceiveWindow.MarkNewMirrorsReceive` | BasisRustClient/crates/basis-client-core/src/transport.rs:297-334 | the Rust window accepts and acknowledges what the C# window does, unless the C# test against the delivery position refuses |
| `ReceiveWindow.MirrorHoldsOnChannel` | BasisRustClient/crates/basis-client-core/src/transport.rs:297-334 | on a channel that test never interferes, new means not accepted before, and both owe an acknowledgement at the same times |
| `ClientChannel.ClientStepIsStep` | BasisRustClient/crates/basis-client-core/src/transport.rs:290-380 | with the client in place of the C# receiver every step of sender and network is the same, acknowledgements included, and the client has dispatched exactly what was accepted, once |
| `ClientChannel.DispatchedOnce` | BasisRustClient/crates/basis-client-core/src/client.rs:1022-1049 | in every run the client dispatches each packet offered at most once and nothing else |
| `ClientChannel.ReleasedOnlyIfDispatched` | BasisRustClient/crates/basis-client-core/src/transport.rs:336-357 | in every run a sender gives up a packet only if the client has dispatched that very packet |
| `ClientChannel.ClientCanFinish` | BasisRustClient/crates/basis-client-core/src/transport.rs:250-264 | from every reachable state, even with every copy lost, the client can still be brought to dispatch every packet offered |
| `ChannelSystem.StepKeepsSound` | scripts/interop/ReliableChannel.cs:105-360 | every step of sender, receiver and network keeps both ends where the unbounded protocol says |
| `ChannelTheorems.OrderedDelivery` | scripts/interop/ReliableChannel.cs:174-360 | in every run, what the ordered receiver delivered is a prefix of what was offered |
| `ChannelTheorems.UnorderedDelivery` | scripts/interop/ReliableChannel.cs:337-358 | in every run, the unordered receiver delivers each offered body at most once and nothing else |
| `ChannelTheorems.ReleasedOnlyIfAccepted` | scripts/interop/ReliableChannel.cs:105-172 | in every run and for both senders, each numbered packet is still retained, or that very number was delivered or is held by the receiver |
| `ChannelTheorems.OutstandingPassesDropTests` | scripts/interop/ReliableChannel.cs:252-273 | in every reachable state each outstanding packet passes the drop tests as the code evaluates them |
| `ChannelTheorems.RoundTrip` | scripts/interop/ReliableChannel.cs:105-172 | from every reachable state, delivering the oldest packet and its acknowledgement shrinks the outstanding set |
| `ChannelTheorems.CanAlwaysFinish` | scripts/interop/ReliableChannel.cs:174-235 | from every reachable state, even with every copy lost, everything offered can still be delivered and acknowledged, by a clock that starts at any given time and never goes backwards |
| `Fragments.SplitLoop` | BasisRustClient/crates/basis-client-core/src/client.rs:555-615 | the fragmentation loop yields the pieces numbered 0 to total-1, or the error for too many |
| `Fragments.JoinChunks` | BasisRustClient/crates/basis-client-core/src/client.rs:575-605 | the pieces concatenate to the payload |
| `Fragments.PushPiece` | BasisRustClient/crates/basis-client-core/src/transport.rs:135-242 | in any order, a new piece is kept, a repeated one is a duplicate, the last missing one completes exactly the payload, and other assemblies are untouched |
| `Fragments.OversizedIsRefused` | BasisRustClient/crates/basis-client-core/src/transport.rs:135-242 | every fragment of a message of more than 128 pieces is refused |
| `Messages.LateFragmentIsRefused` | BasisRustClient/crates/basis-client-core/src/transport.rs:135-155 | a fragment more than ten seconds after the one before is refused, and the earlier ones are forgotten |
| `Messages.MessageComesOutIffIntact` | BasisRustClient/crates/basis-client-core/src/transport.rs:135-242 | all packets of one message in order give the message if and only if it fits one packet, or has at most 128 fragments and no gap of more than ten seconds; otherwise nothing comes out |
| `Messages.StrictGetsWhole` | BasisRustClient/crates/basis-client-core/src/transport.rs:135-242 | of packets in sending order a reassembler that stops at the first refusal gets exactly the messages before the first that is not intact or not complete, whatever the times |
| `Messages.RejoinIsPrefix` | BasisRustClient/crates/basis-client-core/src/transport.rs:135-242 | of packets in sending order, as long as the messages that arrive are intact, a reassembler gets a prefix of what was sent, and all of it once everything has arrived |
| `Messages.RejoinIsExact` | BasisRustClient/crates/basis-client-core/src/transport.rs:135-242 | once all packets have come in sending order, a reassembler has all the messages if and only if every one is intact, whether it stops or goes on after an error |
| `Messages.BrokenIsSkipped` | BasisRustClient/crates/basis-client-core/src/transport.rs:135-155 | a reassembler that goes on skips a message that is not intact and returns every message of one packet after it |
| `Messages.SkippingBreaksPrefix` | BasisRustClient/crates/basis-client-core/src/transport.rs:135-155 | a run of three packets in which it does: what comes out is not a prefix of what was sent |
| `Messages.MessagesArriveInOrder` | scripts/interop/ReliableChannel.cs:317-336 | behind the C# ordered receiver, in every run and whatever the arrival times, a reassembler that stops at the first refusal gets the messages before the first that has not arrived or is not intact, a prefix of the messages sent |
| `ClientMessages.FragmentStep` | BasisRustClient/crates/basis-client-core/src/transport.rs:135-242 | exactly when the client refuses a fragment, in terms of what has arrived of all its messages; otherwise its reassembler again holds exactly the open messages, and the fragment completes its message if and only if it is the last missing |
| `ClientMessages.ClientGets` | BasisRustClient/crates/basis-client-core/src/client.rs:1022-1079 | of packets of many messages on many channels, in any order and each once, the client gets the messages completed before the first refusal, in the order of their last packets |
| `ClientMessages.CameInOrder` | BasisRustClient/crates/basis-client-core/src/client.rs:1050-1079 | each message comes at most once, when it is complete and not before, and those completed earlier come earlier |
| `ClientMessages.FinishedCame` | BasisRustClient/crates/basis-client-core/src/client.rs:1050-1079 | if nothing is refused, every message whose packets have all arrived comes |
| `ClientMessages.InOrderIffCompletedInOrder` | BasisRustClient/crates/basis-client-core/src/client.rs:1022-1079 | on each channel the messages come in sending order, none left out, if and only if they are completed in that order |
| `ClientTheorems.PrefixIffCompletedInOrder` | BasisRustClient/crates/basis-client-core/src/client.rs:1022-1079 | what the client gets on a channel is a prefix of what was sent on it if, and for distinct payloads only if, the messages are completed in sending order |
| `ClientTheorems.OvertakingBreaksPrefix` | BasisRustClient/crates/basis-client-core/src/client.rs:1022-1079 | three packets at one moment after which the client has the second message before the first |
| `ClientTheorems.ClientReceives` | BasisRustClient/crates/basis-client-core/src/client.rs:555-615 | end to end, in every run and whatever the times, the client gets messages that were sent, each at most once, in the order of their last packets: exactly those completed before the first refusal |
| `ClientTheorems.EveryMessageComesOut` | BasisRustClient/crates/basis-client-core/src/transport.rs:135-242 | at most 64 messages that fit the reassembler together, with all packets in any order within ten seconds, all come out, each once |
| `ObserverSequences.ObserverSequence.Consider` | BasisRustClient/crates/basis-client-core/src/observer_sequence.rs:28-72 | decision and new tracker state as specified |
| `ObserverSequences.ObserverSequence.Applied` | BasisRustClient/crates/basis-client-core/src/observer_sequence.rs:74-76 | records the time of the applied frame and nothing else |
| `ObserverSequences.AcceptsExactlyNewer` | BasisRustClient/crates/basis-client-core/src/observer_sequence.rs:28-72 | with the true distance within half the byte range and no silence, exactly the strictly newer frames are accepted |
| `ObserverSequences.HalfRangeIsTight` | BasisRustClient/crates/basis-client-core/src/observer_sequence.rs:66-71 | outside that range the verdict is wrong in both directions |
| `ObserverSequences.WatchKeepsNewest` | BasisRustClient/crates/basis-client-core/src/observer_sequence.rs:28-76 | over a whole run the applied frames are exactly those newer than all before them |
| `ObserverSequences.ResyncNeedsTwoFullFrames` | BasisRustClient/crates/basis-client-core/src/observer_sequence.rs:42-65 | in every run order is regained only by two advancing full frames within ten seconds, with nothing applied in between |
| `ObserverSequences.DeltasWait` | BasisRustClient/crates/basis-client-core/src/observer_sequence.rs:46-65 | any number of deltas leaves a resynchronizing tracker as it is |
| `AvatarObservers.AvatarObserver.MarkDiscontinuity` | BasisRustClient/crates/basis-client-core/src/observer.rs:93-124 | every peer forgets its baselines, sequence and tracker |
| `AvatarObservers.AvatarObserver.AcceptSequence` | BasisRustClient/crates/basis-client-core/src/observer.rs:126-182 | the verdict on a frame, and that ambiguity after silence costs the peer all its baselines |
| `AvatarObservers.AvatarObserver.ObserveItem` | BasisRustClient/crates/basis-client-core/src/observer.rs:274-345 | what a full frame, a delta or anything else does to the peers, and what counts as malformed |
| `AvatarObservers.AvatarObserver.ObserveDelta` | BasisRustClient/crates/basis-client-core/src/observer.rs:347-413 | a delta is decoded only against the baseline of its quality that it names |
| `AvatarObservers.AvatarObserver.ObserveBundle` | BasisRustClient/crates/basis-client-core/src/observer.rs:233-272 | the items of a bundle are observed in turn, and how many are malformed; a bundle that does not decode counts as one and changes nothing |
| `ObserverSessions.ObserverSession.Claim` | BasisRustClient/crates/basis-client-core/src/observer_session.rs:121-147 | who gets the lease, that a change of owner empties the observer, and that the atomics mirror the guarded state afterwards |
| `ObserverSessions.ObserverSession.Touch` | BasisRustClient/crates/basis-client-core/src/observer_session.rs:149-159 | the last packet time never moves backwards and its millisecond mirror follows |
| `ObserverSessions.ObserverSession.NotePacket` | BasisRustClient/crates/basis-client-core/src/observer_session.rs:161-170 | with its early exit, renews the lease of exactly the owner's generation |
| `ObserverSessions.ObserverSession.Release` | BasisRustClient/crates/basis-client-core/src/observer_session.rs:172-182 | with its early exit, gives up the lease of exactly the owner's generation |
| `ObserverSessions.ObserverSession.ObserveAvatars` | BasisRustClient/crates/basis-client-core/src/client.rs:934-953 | the check without the mutex loses no observation that the lease would grant |
| `ObserverSessions.FastCheckIsSafe` | BasisRustClient/crates/basis-client-core/src/observer_session.rs:113-147 | the lock-free check never excludes a client the lease would accept, and lets one too many through only in a lease's last millisecond or for another generation of the owner |
| `ObserverSessions.EarlyExitsAreTransparent` | BasisRustClient/crates/basis-client-core/src/observer_session.rs:161-182 | the early exits skip only what would change nothing |
| `ObserverTheorems.DeltasRestOnOwnFrames` | BasisRustClient/crates/basis-client-core/src/observer.rs:326-404 | in every run each shown delta was decoded against a full frame of the same peer and quality shown earlier under the same ownership, client and generation, with less than two seconds between successive frames of that peer since |
| `ObserverTheorems.ResyncingHoldsNoBaselines` | BasisRustClient/crates/basis-client-core/src/observer.rs:159-170 | in every run a peer waiting for order holds no baseline |
| `ObserverTheorems.OwnerKeepsLease` | BasisRustClient/crates/basis-client-core/src/observer_session.rs:121-147 | in every run an owner loses the lease only by its own release or six seconds after every packet heard from it |
| `Persistence.PersistenceSession.Cancel` | BasisRustClient/crates/basis-client-core/src/persistence.rs:209-226 | removes the connection of that generation and counts its chain once |
| `Persistence.PersistenceSession.SendFailed` | BasisRustClient/crates/basis-client-core/src/persistence.rs:227-247 | ends the chain only if it still waits for that request |
| `Persistence.PersistenceSession.Observe` | BasisRustClient/crates/basis-client-core/src/persistence.rs:248-333 | malformed, stale, failed, acknowledged and read-back replies; a Get request follows exactly when a Set that is waited for was acknowledged, under the next id |
| `Persistence.PersistenceSession.Tick` | BasisRustClient/crates/basis-client-core/src/persistence.rs:435-520 | replacement, timeout, end of measurement, backpressure and the start of a chain, in that order; a Set request goes out exactly when a chain starts, under the next id |
| `Persistence.PersistenceSession.Shutdown` | BasisRustClient/crates/basis-client-core/src/persistence.rs:532-544 | every pending chain is canceled and counted once, in whatever order |
| `Persistence.EveryChainIsAccountedFor` | BasisRustClient/crates/basis-client-core/src/persistence.rs:209-544 | in every interleaving the Sets sent equal the sum of their outcomes and the chains pending, with the laws for Gets, statuses, latencies and writers |
| `Persistence.ShutdownClosesTheBooks` | BasisRustClient/crates/basis-client-core/src/persistence.rs:532-544 | after a shutdown the counters alone account for every Set |
| `Persistence.LateReplyIsStale` | BasisRustClient/crates/basis-client-core/src/persistence.rs:248-275 | in every run a reply with the id of an earlier request of the connection is taken for the pending one only if a multiple of 65535 requests lie between them, and is otherwise counted as stale and changes nothing else |
| `Persistence.SentIsNumbered` | BasisRustClient/crates/basis-client-core/src/persistence.rs:101-106 | in every run the ids a connection issues are the first ones of the cycle in order, and a pending request carries the newest |
| `Histograms.Histogram.Record` | BasisRustClient/crates/basis-client-core/src/persistence.rs:40-45 | the bins count the samples, and overflow counts those past 20 seconds |
| `Histograms.Histogram.Percentile` | BasisRustClient/crates/basis-client-core/src/persistence.rs:46-59 | the bin of the nearest-rank element of the samples in any sorted order; the scan never falls through |
| `Histograms.RankedBin` | BasisRustClient/crates/basis-client-core/src/persistence.rs:46-59 | the first bin where the running count reaches the rank is the bin of the ranked sample |
| `Framing.CompactRoundTrip` | BasisRustClient/crates/basis-client-core/src/client.rs:815-887 | parsing the reference encoding of any entries returns them |
| `Framing.CompactIsCanonical` | BasisRustClient/crates/basis-client-core/src/client.rs:815-887 | every datagram accepted to its end is the unique encoding of its entries; of a malformed one a proper prefix is |
| `Framing.MergedRoundTrip` | BasisRustClient/crates/basis-client-core/src/client.rs:778-814 | the same round trip for Merged |
| `Framing.MergedIsCanonical` | BasisRustClient/crates/basis-client-core/src/client.rs:778-814 | the same canonicity for Merged |
| `Framing.AsyncCompact` | BasisRustClient/crates/basis-client-core/src/client.rs:815-887 | dispatches the reference entries up to the first that fails, by position, and reports malformed exactly when the walk is incomplete and nothing failed |
| `Framing.SharedCompact` | BasisRustClient/crates/basis-client-core/src/receiver.rs:313-388 | forwards exactly the kept raw packets of the same walk, with the same verdict |
| `Framing.AsyncMerged` | BasisRustClient/crates/basis-client-core/src/client.rs:778-814 | dispatches the reference packets up to the first that fails, by position, with the same verdict |
| `Framing.SharedMerged` | BasisRustClient/crates/basis-client-core/src/receiver.rs:262-311 | forwards exactly the kept packets of the same walk, with the same verdict |
| `Framing.CompleteUnlessFailure` | BasisRustClient/crates/basis-client-core/src/client.rs:804-809 | the async walk is complete if and only if no dispatch fails |
| `Handoff.NothingShedIsMarked` | BasisRustClient/crates/basis-client-core/src/receiver.rs:73-260 | in every interleaving each copy is under way once or ended once, and is marked if and only if it is reliable and was ignored on purpose or handled |
| `Handoff.ControlIsNeverShed` | BasisRustClient/crates/basis-client-core/src/receiver.rs:73-118 | a datagram that opens or ends a connection and is read from its socket is, in every continuation, under way or handed to its client, or refused because that client is gone |
| `Handoff.MergedControlIsLost` | BasisRustClient/crates/basis-client-core/src/receiver.rs:210-311 | a merged datagram with such a packet in it has the effect of the one without it |
| `Handoff.AcknowledgedWasProcessed` | BasisRustClient/crates/basis-client-core/src/client.rs:1022-1049 | every bit set in a client's receive window is owed to a copy of that client, channel and very sequence that was ignored on purpose or handled |
| `Ogg.OggPackets` | scripts/perf/run-windows-voice-workload.py:22-47 | the demultiplexer's loops are its value specification, errors included |
| `Ogg.DemuxRecoversPackets` | scripts/perf/run-windows-voice-workload.py:22-47 | any packets are recovered from any legal division of their segments into pages |
| `Ogg.AcceptedIsPages` | scripts/perf/run-windows-voice-workload.py:22-47 | whatever is accepted is a sequence of legal pages whose segments form the packets returned |
| `Ogg.OpusOgg` | scripts/perf/analyze-windows-voice.py:43-55 | succeeds exactly when every packet and header field fits, and writes legal pages with the segments of the headers and the packets |
| `Ogg.RoundTrip` | scripts/perf/analyze-windows-voice.py:43-55 | reading back what was written gives the packets if and only if none looks like a header |
| `BitPacking.WritePackedBits` | BasisRustClient/crates/basis-client-core/src/avatar.rs:54-74 | the field holds the low bits of the value and every other bit is unchanged |
| `BitPacking.WriteBones` | BasisRustClient/crates/basis-client-core/src/avatar.rs:294-315 | all nine 38-bit rotations are read back modulo two to the 38, and nothing else changed |
| `DeltaCodec.EgRoundTrip` | BasisRustServer/crates/basis-protocol/src/avatar_delta.rs:506-614 | a signed number is read back from its Exp-Golomb code, and reading stops at its end |
| `DeltaCodec.DifferenceRestores` | BasisRustServer/crates/basis-protocol/src/avatar_delta.rs:457-463 | adding the wrapped difference modulo the width restores the value |
| `DeltaCodec.SameHasNoBody` | BasisRustServer/crates/basis-protocol/src/avatar_delta.rs:253-256 | the early return for equal payloads is what the general path would build |
| `DeltaCodec.ApplyInvertsBuild` | BasisRustServer/crates/basis-protocol/src/avatar_delta.rs:241-374 | applying a built delta, whatever follows it, gives the current payload and the delta's exact length |
| `DeltaCodec.RightOnlyOnAgreeingBase` | BasisRustServer/crates/basis-protocol/src/avatar_delta.rs:241-374 | applied to another payload than it was built from, a delta is accepted all the same and gives the current payload if and only if the two agree in every channel not sent raw |
| `AvatarLayout.LayoutIsComplete` | BasisRustServer/crates/basis-protocol/src/avatar_delta.rs:61-239 | at every quality the channels are legal and cover the payload without a gap |
| `AvatarLayout.LayoutIsSeparate` | BasisRustServer/crates/basis-protocol/src/avatar_delta.rs:61-239 | and no bit belongs to two of them |
| `AvatarLayout.DeltaFitsBuffer` | BasisRustServer/crates/basis-protocol/src/avatar_delta.rs:268-323 | no delta outgrows the buffer it is written into |
| `AvatarUplink.ApplyInvertsBuild` | BasisRustServer/crates/basis-protocol/src/avatar_delta.rs:241-374 | the same on bytes at high quality, with no assumption left |
| `AvatarUplink.RightOnlyOnAgreeingBase` | BasisRustServer/crates/basis-protocol/src/avatar_delta.rs:241-374 | on bytes, a delta applied to another frame is right if and only if that frame agrees with its base where it must |
| `AvatarUplink.TicksNeverOutrunTime` | BasisRustClient/crates/basis-client-core/src/avatar.rs:41-52 | over any frames, ticks never come faster than the interval |
| `AvatarUplink.PoseState.WriteDatagram` | BasisRustClient/crates/basis-client-core/src/avatar.rs:257-397 | what is sent, if anything, and the sender's new state |
| `AvatarUplink.WriteIsExactIffFaithful` | BasisRustClient/crates/basis-client-core/src/avatar.rs:335-397 | one call keeps an exact receiver exact if and only if it sends no delta, or one that the last full frame sent can carry |
| `AvatarUplink.ExactIffFaithful` | BasisRustClient/crates/basis-client-core/src/avatar.rs:335-397 | lossless and in order, over any calls, the receiver shows after each what was last sent if and only if every call is of that kind |
| `AvatarUplink.FaithfulIffRecorded` | BasisRustClient/crates/basis-client-core/src/avatar.rs:363-377 | for a changed pose and distinct sequences that means: no delta goes out while the last full frame went out unrecorded |
| `AvatarUplink.ReceiverShowsSender` | BasisRustClient/crates/basis-client-core/src/avatar.rs:335-397 | it is enough to ask for a keyframe whenever deltas are allowed again: then the receiver shows after every call what was last sent |
| `AvatarUplink.ConstantMetadataIsExact` | BasisRustClient/crates/basis-client-core/src/avatar.rs:335-397 | so it is after every call for constant metadata, from the start |
| `AvatarUplink.TogglingBreaksExactness` | BasisRustClient/crates/basis-client-core/src/avatar.rs:335-385 | three calls that toggle the permission leave the receiver behind |
| `AvatarUplink.UnannouncedDeltaIsLost` | BasisRustClient/crates/basis-client-core/src/avatar.rs:335-385 | any delta that names a sequence the receiver does not hold has no effect |
| `AvatarUplink.AliasedDeltaMisleads` | BasisRustClient/crates/basis-client-core/src/avatar.rs:335-385 | a delta that names the sequence of another full frame is applied to that frame: exactly when the result is right, and that a return to the keyframe is shown as the other frame |
| `AvatarUplink.AliasIsReached` | BasisRustClient/crates/basis-client-core/src/avatar.rs:335-397 | a run of 258 calls a millisecond apart ends that way |
| `AvatarUplink.RequestSurvives` | BasisRustClient/crates/basis-client-core/src/avatar.rs:266-268 | a keyframe request outlives suppressed ticks: the next datagram is full |
| `AvatarUplink.LostDeltaIsNoticed` | BasisRustServer/crates/basis-server-core/src/lib.rs:3393-3444 | the server asks for a keyframe exactly when a delta names a sequence it does not hold and it has not asked within a second |
| `AvatarUplink.RequestRestores` | BasisRustClient/crates/basis-client-core/src/avatar.rs:266-397 | from any receiver, the first datagram after a request makes it show what was sent, and it stays exact if every later return of deltas is announced |
| `Reconnect.FailureReconnectState.NoteFailed` | BasisRustClient/crates/basis-client-core/src/population.rs:320-329 | counts the failure and sets the deadline |
| `Reconnect.FailureReconnectState.Look` | BasisRustClient/crates/basis-client-core/src/population.rs:331-361 | the progress reported and the state afterwards |
| `Reconnect.RunRemembers` | BasisRustClient/crates/basis-client-core/src/population.rs:306-362 | in every run the stored count is the number of failures since the last connection |
| `Reconnect.NeverReadyEarly` | BasisRustClient/crates/basis-client-core/src/population.rs:331-366 | in every run a client is ready no earlier than two to the power min(k-1, 6) seconds after its k-th consecutive failure |
| `Reconnect.ReadyInTime` | BasisRustClient/crates/basis-client-core/src/population.rs:353-360 | and is ready then |
| `Reconnect.FailedAtMostOnce` | BasisRustClient/crates/basis-client-core/src/population.rs:331-351 | the failures counted against a pending attempt, found by a look or reported, never exceed the attempts |

## Left out

- Locks, threads and the async runtime: each guarded section is one step, and steps interleave freely.
- Sockets, epoll, timers, files and the mutex poisoning message: clock readings, random seeds, the start file, dispatch errors and the resend delay are inputs.
- ReliableChannel.Channel.ProcessPacket: packets are values, so recycling of buffers is not modelled; the statistics counters are left out.
- QueueSenderRefinement.PromoteRefines: the pump that follows an acknowledgement is a step of its own, so runs may delay it.
- ReliableQueue.PendingReliable.Resend: a failed socket write, which only makes a record due again, is not modelled.
- Fragments.PushPiece: the reassembler is on values; its order of expiry is immaterial because expiry always ends in an error.
- Messages.StrictGetsWhole: one channel is rejoined at a time.
- ClientMessages.ClientGets: every packet is a datagram of its own; in the source, packets merged with the refused one are still handled before the connection ends. Messages open on one channel at one time must differ in id, as they do unless the sender's 16-bit counter has gone round in between.
- ClientTheorems.ClientReceives: follows the run of one channel; packets of other channels at the same reassembler are covered by ClientGets.
- ClientChannel.DispatchedOnce: the client's own packets on the channel, and what dispatch does with a payload, are left out.
- AvatarObservers.AvatarObserver.ObserveItem: positions, near-peer statistics, the measurement window and its counters are left out; the delta codec is a parameter there.
- ObserverSessions.FastCheckIsSafe: clock readings are not earlier than the session's creation, and the millisecond count does not reach 64 bits.
- Persistence.PersistenceSession.Observe: replies arrive parsed, stored values are an arbitrary function of writer, generation and sequence, and counters do not overflow.
- Histograms.Histogram.Percentile: the result is in microseconds, and the product of count and percentile does not overflow.
- Framing.AsyncCompact: what dispatch does with an entry is left out apart from whether it fails.
- Handoff.NothingShedIsMarked: answers to pings and MTU probes, registration of sockets and a poisoned receive window are left out.
- Ogg.OpusOgg: the checksum is an arbitrary four-byte function of the page; the demultiplexer ignores it.
- BitPacking.WritePackedBits: bytes and values are numbers, and the masking operators act on their bits.
- DeltaCodec.ApplyInvertsBuild: buffers are bit sequences, so the word-at-a-time reads and writes are not modelled.
- AvatarUplink.PoseState.WriteDatagram: pose angles, the send interval and the quantized payload are inputs, over reals where the source has floats.
- Cryptography, login, configuration, console, CSV output, the image benchmark and the performance scripts.
- Server-side governors, caches and storage quotas.
