# iroh_beam, verified

A Dafny model of the three linked parts of iroh_beam that carry its hard promises, and proofs
of those promises. `dafny verify dfyconfig.toml` checks everything.

**The distribution byte pipeline.** One QUIC stream carries a preface with a one-byte
acknowledgement, then packet-two handshake frames, then packet-four data frames. `Transport` is a
stream that may be cut anywhere; `Preface`, `PacketTwo` and `PacketFour` are the three protocols;
`Controller` runs the input loop and composes the phases; `Writer` is the native write loop;
`Delivery` is the whole link as a transition system of output loop, channel and input loop;
`RecvToEnd` is the bounded reader of whole streams.

**Native resources under interleaving.** `StreamOwnership`, `QueuePeak`, `Operation`,
`IdentityRegistry`, `Permits` and `KeyFile` are transition systems over any number of threads, one
step per atomic operation, locked section or file-system call. A statement about them is about every
state of every finite run. `SoleCaller` composes the
stream with its operations. `EndpointBind` and the class `QueueCounters` are the same code as it runs
step by step in one thread.

**Admission and the endpoint server.** `PeerTable` is the fold that builds the two peer tables and
the lookups that admit a peer; `EndpointServer` is the hand-off of incoming sessions and the table of
links. `Bytes`, `Numbers`, `Sums` and `Options` are shared vocabulary.

Tempting claims that are false of the code, each with the input or run that breaks it and the exact
condition under which it holds:

- A closed half has an empty slot: `StreamOwnership.ClosedSlotCanBeFull`; once empty it stays so unless
  a lease has passed its closed test, `ClosedStaysEmptyIff`.
- Packets before an oversize frame are delivered: `PacketFour.OversizeDiscardsEarlierPackets`;
  `PacketFour.EarlierPacketsSurviveIff`, and by the position of the cuts `Controller.NoneLostIff`.
- A rejected peer map has one error: `PeerTable.ErrorDependsOnOrder`; `ErrorFixedIffOneFault`.
- A caller that calls again finds the half free: `SoleCaller.GivingUpMeansBusy` and
  `GivingUpMeansUnavailable`; `NeverRefused` for one that waits, `RefusedIff` for every call.
- A caller whose bind ended can bind again: `IdentityRegistry.CancelledMayStillHold`;
  `ToldFailureHoldsNothing` and `CancelledOrTold` say when.
- A name is free once a release has returned: `IdentityRegistry.ReleasedMayStillHold`;
  `HeldAfterReleaseIff`.
- Everything sent arrives: `Delivery.MismatchedLimitsStop`; `Delivery.AllBytesAllPackets`.

Assumptions: atomics are sequentially consistent; the transport delivers bytes in order and a read
returns between one byte and what was asked for; a future is dropped before its join resolves;
one data notification is sent for each arming; packets fit a 32-bit length, as the configuration's limit
of 64 MiB ensures; nobody else writes or deletes key files, and a process
id is not reused while its temporary files remain in use.

## Model

| member | source | states |
|---|---|---|
| `Transport.Recv` | lib/iroh_beam/stream.ex:132-159 | a read returns between one byte and all that was asked for, in order, then the stream's ending; requests outside 1..16 MiB are refused |
| `Transport.EveryCutPossible` | lib/iroh_beam/stream.ex:132-153 | every legal read size is one the transport may choose, so statements about all inputs are statements about all cuttings |
| `Transport.RecvExactTakesPrefix` | src/iroh_dist.erl:208-221 | whatever the cuts, `recv_exact` takes the next n bytes and not one more, and fails exactly when the stream ends before them |
| `Bytes.EncodeAt` | src/iroh_dist_controller.erl:113 | the byte at position i of an encoded length is the digit of that place, the most significant first |
| `Bytes.DecodeConcat` | src/iroh_dist_controller.erl:167 | a length is read most significant byte first: the value of two parts is that of the first, moved up by the bytes of the second, plus that of the second |
| `PacketFour.FrameBytes` | src/iroh_dist_controller.erl:108-113 | the four header bytes of a packet, each as a digit of its length, and then the packet |
| `PacketFour.HeaderRead` | src/iroh_dist_controller.erl:159-171 | four header bytes given to the fresh parser, in any pieces, are taken as that big-endian number: the body awaited, an empty packet or the failure naming it |
| `PacketFour.NoChunkIsEmpty` | src/iroh_dist_controller.erl:178-188 | no piece handed over with a packet is empty |
| `PacketFour.FeedRefinesParse` | src/iroh_dist_controller.erl:153-191 | the two-state incremental parser computes what a stateless reference does on the bytes it held followed by the new ones, errors included |
| `PacketFour.ParseSplit` | src/iroh_dist_controller.erl:159-191 | the reference gives the same packets, rest and errors wherever its input is cut |
| `PacketFour.ParseAcceptsIffLegal` | src/iroh_dist_controller.erl:92-113 | a stream of frames is read back as sent exactly when every packet is within the reader's limit |
| `PacketFour.ParsePrefix` | src/iroh_dist_controller.erl:159-191 | any beginning of a stream of frames yields a beginning of the packets before the first one over the limit, all packets only when every byte is there, and an error only for that first one, with its length |
| `PacketFour.FeedLossless` | src/iroh_dist_controller.erl:155-191 | emitted packets framed again, then the bytes the new state stands for, are the old state's bytes then the input; every packet is within the limit |
| `PacketFour.EquivalentIffSameBytes` | src/iroh_dist_controller.erl:178-180 | two resting states differ only in how their bytes are cut exactly when they hold the same bytes |
| `PacketFour.ChunkingIndependence` | src/iroh_dist_controller.erl:155-191 | feeding a then b is feeding a ++ b: same packets, equivalent state, and a failure of one is the same failure of the other |
| `PacketFour.FeedOfFrames` | src/iroh_dist_controller.erl:108-113 | feeding the frames of a legal packet list gives back that list and the initial state |
| `PacketFour.OversizeDiscardsEarlierPackets` | src/iroh_dist_controller.erl:168-171 | an oversize frame takes the packets parsed earlier in the same call with it; cut before it, they are delivered |
| `PacketFour.EarlierPacketsSurviveIff` | src/iroh_dist_controller.erl:168-171 | exactly the packets that the failing call had itself parsed are lost; all earlier ones survive if and only if it had parsed none |
| `PacketFour.FailsFromOversizeOn` | src/iroh_dist_controller.erl:168-171 | of a stream with an oversize frame, a beginning fails exactly when it reaches past that frame's header |
| `PacketFour.FeedManyRefinesParse` | src/iroh_dist_controller.erl:122-139 | called once for each piece of the stream, any number of times, the parser has computed the reference on all the bytes together |
| `PacketFour.AnyCutting` | src/iroh_dist_controller.erl:155-191 | any two cuttings of the same bytes into any number of pieces fail alike or give the same packets and equivalent states |
| `PacketFour.ManyCallsLossless` | src/iroh_dist_controller.erl:155-191 | after any number of successful calls nothing is lost or invented, and less than one frame of the largest size is retained |
| `Controller.InputLoop` | src/iroh_dist_controller.erl:122-147 | for every cutting: the stream's ending or the oversize length is reported, and the packets handed over are all of them, or exactly those that ended before the read that completed the oversize header; the reported bytes and frames are those handed over |
| `Controller.NoneLostIff` | src/iroh_dist_controller.erl:127-141 | no packet before an oversize frame is lost if and only if the read that completes its header began no earlier than the last of them ended |
| `PacketFour.BeforeOversizeSplit` | src/iroh_dist_controller.erl:159-191 | the packets before the first oversize frame are the ones already emitted followed by those of what is held and still to come |
| `Controller.PhasesTakeTheirBytes` | src/iroh_dist_preface.erl:35-51 | towards the acceptor, preface and packet-two handshake take exactly their own bytes, whatever follows and however the stream is cut |
| `Controller.OpenOnlyByTheirBytes` | src/iroh_dist.erl:188-196 | a session that opens was opened by a preface naming the node bound to the authenticated id, in at most 255 bytes, and by the packets received, and every later byte is still unread |
| `Controller.WhyNotOpened` | src/iroh_dist_preface.erl:35-61 | a claim that is not bound is refused for its identity; after a bound one only the handshake can break, with the stream's own ending |
| `Controller.RunAcceptor` | src/iroh_dist_controller.erl:122-147 | one stream, three protocols: claim, handshake and data packets are all recovered under every cutting with no byte lost, repeated or read early; a session that ran had such bytes and handed over what the input loop must |
| `Controller.AnswersTakeTheirBytes` | src/iroh_dist_preface.erl:21-24 | towards the dialler, acknowledgement and handshake take exactly their own bytes |
| `Controller.DialOnlyByTheirBytes` | src/iroh_dist.erl:188-196 | a session that opens on the dialling side had an acknowledgement and the handshake packets received, and every later byte is still unread |
| `Controller.WhyNotDialled` | src/iroh_dist_preface.erl:21-32 | without a reply the stream's ending, with any reply but an acknowledgement a refusal, and after an acknowledgement only a broken handshake |
| `Controller.RunDialler` | src/iroh_dist_controller.erl:122-147 | the three protocols in the other direction: acknowledgement, handshake and data packets are recovered under every cutting |
| `PacketTwo.Frame` | src/iroh_dist.erl:173-179 | framed exactly when below 65536 bytes, as its size in two bytes and then the packet, within the bound on the send |
| `PacketTwo.FrameBytes` | src/iroh_dist.erl:173-179 | the two header bytes of a packet, most significant first, and then the packet |
| `PacketTwo.RecvMeaning` | src/iroh_dist.erl:188-196 | a packet is read exactly when its length field and body have arrived; otherwise the stream's own ending is the error |
| `PacketTwo.RecvManyOfFrames` | src/iroh_dist.erl:173-221 | any list of handshake packets is recovered under any cutting, leaving exactly the bytes that follow |
| `PacketTwo.RecvManySound` | src/iroh_dist.erl:188-221 | whatever bytes arrive, the packets received are framed in them, in order, right before the bytes left over |
| `PacketTwo.RecvManyBreaksOff` | src/iroh_dist.erl:188-221 | a handshake that breaks off had fewer packets than asked for, all of them framed at the beginning, no whole packet after them, and ends with the stream's own ending |
| `Preface.FrameWithinSendLimit` | src/iroh_dist_preface.erl:14-20 | a preface frame is never empty and fits the 1024-byte bound on its send |
| `Preface.FrameBytes` | src/iroh_dist_preface.erl:14-20 | the magic, then each name's length in two bytes, most significant first, and the names; for two short names every byte is written out |
| `Preface.DialsExactlyWhen` | src/iroh_dist_preface.erl:10-32 | what the dialler comes to in every case: names too long, a send that breaks off, no reply, an acknowledgement, any other reply |
| `Preface.IncomingWithoutNames` | src/iroh_dist_preface.erl:37-60 | a short or malformed stream is refused with the right error before any name is looked at |
| `Preface.IncomingOfFrame` | src/iroh_dist_preface.erl:35-61 | on a frame and anything after it the acceptor decides by the claim alone and stops reading at the end of the frame; a claim that is not bound gets the identity error, a broken acknowledgement the error of its send |
| `Preface.AcceptsExactlyBoundClaims` | src/iroh_dist_preface.erl:35-61 | for arbitrary bytes: accepted exactly when they begin with a frame addressing this node and claiming the one name bound to the authenticated id, and the acknowledgement goes out |
| `Preface.EndsAgree` | src/iroh_dist_preface.erl:10-61 | dialler and acceptor succeed together, exactly when the dialled node is this one and the id is bound to the dialler's name; the later peer check then succeeds, and neither has read ahead |
| `Preface.OnlyOneIsAcknowledgement` | src/iroh_dist_preface.erl:23-26 | one byte is read; any but 1 is a refusal |
| `PeerTable.ValidNodeIffOneInnerAt` | lib/iroh_beam/distribution/config.ex:213-220 | a name is valid exactly when it has one `@`, neither first nor last |
| `PeerTable.NormalizeSucceedsIffAcceptable` | lib/iroh_beam/distribution/config.ex:267-281 | the fold succeeds exactly when every node is valid and not local, every target normalizes and ids are distinct; its tables are then the map's and mutually inverse |
| `PeerTable.OrderIndependent` | lib/iroh_beam/distribution/config.ex:267-281 | success and both tables do not depend on the order of enumeration |
| `PeerTable.ErrorDependsOnOrder` | lib/iroh_beam/distribution/config.ex:275-278 | which error is reported can depend on the order of enumeration, by example |
| `PeerTable.ReportedIffFault` | lib/iroh_beam/distribution/config.ex:267-281 | an error is reported in some order of enumeration exactly when the map has the fault it names |
| `PeerTable.ErrorFixedIffOneFault` | lib/iroh_beam/distribution/config.ex:267-281 | the error is the same in every order exactly when the map has one kind of fault; a map is accepted exactly when it has none |
| `PeerTable.NormalizedIsInstalled` | lib/iroh_beam/distribution/config.ex:74-85 | tables that came out of the fold meet the assumption the lookups rely on |
| `PeerTable.LookupsInverse` | lib/iroh_beam/distribution/config.ex:138-144 | id to node and node to id are inverse lookups |
| `PeerTable.LookupsFollowConfiguration` | lib/iroh_beam/distribution/config.ex:131-144 | the lookups answer with what the configured map says: a node's target, and the id of that target |
| `PeerTable.TargetNormalizes` | lib/iroh_beam/distribution/config.ex:285-314 | a target is accepted exactly in the legal forms, and which id each form stands for |
| `PeerTable.PeerPassesIffBound` | src/iroh_dist_endpoint.erl:170-178 | the later identity check passes exactly for the node the id is bound to, reports an unknown peer exactly for a node not configured, and a mismatch in the remaining case |
| `PeerTable.ClaimGrantedIffBound` | lib/iroh_beam/distribution/config.ex:146-158 | a claim is granted exactly when it addresses this node and names the node bound to the authenticated id; it then passes `validate_peer` |
| `RecvToEnd.ReadToEndCorrect` | lib/iroh_beam/stream.ex:165-256 | the whole stream exactly when it ends and is no longer than the limit; a longer one is refused whatever its ending; a failure within the limit is reported |
| `RecvToEnd.ReadToEndBounded` | lib/iroh_beam/stream.ex:232-256 | no request is for zero bytes or beyond the chunk; at most limit + 1 requests and limit + 1 bytes, counting the probe |
| `RecvToEnd.ReadToEndAsks` | lib/iroh_beam/stream.ex:232-247 | each read asks for all that the limit still allows, up to the default chunk, and for one byte once the limit is reached |
| `Writer.Send` | native/iroh_beam_nif/src/stream.rs:486-558 | what reaches the wire is a prefix of the data, whatever fails or cuts the loop off, and all of it when the send reports success; it fails only when the transport refuses a write; a reset is noticed exactly when it comes before the last chunk, after the chunks written before it |
| `Writer.SendIoData` | native/iroh_beam_nif/src/stream.rs:583-630 | success only with the declared size written whole and every chunk begun before any reset, and always so for legal sizes when the transport refuses nothing and no reset comes first; otherwise still a prefix |
| `Delivery.DeliveredIsPrefixOfPulled` | src/iroh_dist_controller.erl:73-147 | in every run and for any two limits, packets delivered are a prefix of those pulled, all within the receiver's limit, and the wire is a prefix of their frames, wherever a write failed |
| `Delivery.StopsOnlyOnOversize` | src/iroh_dist_controller.erl:140-141 | the receiver stops on a frame only when a packet over its limit was begun, on the first one, so never while the limits match |
| `Delivery.PulledInOfferedOrder` | src/iroh_dist_controller.erl:73-106 | what is pulled is what the VM offered, in order and without gaps, with ticks as empty packets between |
| `Delivery.PullTakesNext` | src/iroh_dist_controller.erl:92-106 | while the VM has data each pull takes the next packet and begins its frame, or stops on it when it is over the limit; only with none ready is a notification asked for |
| `Delivery.MessagesInOrder` | src/iroh_dist_controller.erl:73-90 | in every run the messages taken and those waiting are the messages sent, in order, none skipped |
| `Delivery.TicksAreSent` | src/iroh_dist_controller.erl:77-79 | the empty frames begun for ticks are as many as the ticks taken |
| `Delivery.StoppedIff` | src/iroh_dist_controller.erl:73-106 | the loop has stopped exactly when it took a close or an exit of its parent or input, a write failed, or it pulled a packet over the limit |
| `Delivery.AllBytesAllPackets` | src/iroh_dist_controller.erl:73-147 | once every byte begun is written and read, everything begun is delivered exactly when every packet is within the receiver's limit, exactly when the receiver has not stopped on one; the parser is then back in its first state |
| `Delivery.CountersAgree` | src/iroh_dist_controller.erl:114-139 | the totals reported at each end are the sizes of what was confirmed and delivered; the receiver is at most one frame ahead, and equal when the wire is empty and the loop idle |
| `Delivery.NoLostWakeup` | src/iroh_dist_controller.erl:73-96 | a loop waiting while the VM has data has exactly one notification coming |
| `Delivery.StoppedForGood` | src/iroh_dist_controller.erl:73-113 | once a failed write, an oversize packet or a close has stopped the sender, it begins and writes nothing more in the rest of any run |
| `Delivery.MismatchedLimitsStop` | src/iroh_dist_controller.erl:168-171 | with the smaller limit at the receiver, a run from the start in which any packet between the limits stops it with nothing delivered |
| `StreamOwnership.OnePlaceOneOwner` | native/iroh_beam_nif/src/stream.rs:38-122 | in every interleaving a half's handle is in the slot, in one lease or spent, and a set busy flag has exactly one owner |
| `StreamOwnership.TurnedAwayIff` | native/iroh_beam_nif/src/stream.rs:411-436 | in every run a call is told busy exactly while another owns the flag, and finds no handle exactly when there never was one, it is spent, or an earlier lease that has cleared its flag still has it |
| `StreamOwnership.SpentForGood` | native/iroh_beam_nif/src/stream.rs:48-73 | a handle once reset, stopped, finished or dropped never comes back |
| `StreamOwnership.OpenKeepsHandle` | native/iroh_beam_nif/src/stream.rs:93-122 | while the closed flag is unset the handle is in the slot or leased |
| `StreamOwnership.ClosedSlotIsLatePut` | native/iroh_beam_nif/src/stream.rs:93-104 | a closed half has a full slot only while a thread is about to empty it or after a lease put its handle back |
| `StreamOwnership.ClosedSlotCanBeFull` | native/iroh_beam_nif/src/stream.rs:48-104 | the run in which that happens: "closed implies empty" is false |
| `StreamOwnership.ClosedStaysEmptyIff` | native/iroh_beam_nif/src/stream.rs:93-122 | the empty slot of a closed half can be filled again in some continuation exactly while a lease is between its closed test and its put |
| `StreamOwnership.AbortReachesOperation` | native/iroh_beam_nif/src/stream.rs:48-73 | after the notification an operation holding the handle is woken or finds it stored, and the code it reads is in QUIC's range |
| `StreamOwnership.ClosedOnce` | native/iroh_beam_nif/src/stream.rs:38-80 | of all the calls of `close` one returns true; when it is done both halves are closed and the gauge has gone down once |
| `StreamOwnership.FreedLeavesNothing` | native/iroh_beam_nif/src/stream.rs:75-80 | when the resource is gone its handles are spent, late ones included |
| `StreamOwnership.TakeAlone` | native/iroh_beam_nif/src/stream.rs:403-475 | from any state, with no other step between: a closed, busy or empty half is refused and left as it was; otherwise the handle goes from the slot to the lease and the flag is set |
| `StreamOwnership.DropAlone` | native/iroh_beam_nif/src/stream.rs:93-122 | dropping a lease clears the flag and puts the handle back, or spends it when the half has been closed |
| `StreamOwnership.FinishAlone` | native/iroh_beam_nif/src/stream.rs:708-742 | finish on a half in use changes nothing; otherwise the half is closed and what is in its slot is spent |
| `StreamOwnership.AbortAlone` | native/iroh_beam_nif/src/stream.rs:48-73 | a reset or stop stores its code, closes, notifies and spends what is in the slot, and leaves the other half alone |
| `StreamOwnership.CloseAlone` | native/iroh_beam_nif/src/stream.rs:38-46 | close aborts both halves with code 0 and counts down once; a later call changes nothing |
| `StreamOwnership.AbortBothAlone` | native/iroh_beam_nif/src/stream.rs:763-771 | an abort of the stream stores its code in both halves and then closes, which replaces the code with 0 unless the stream was closed before |
| `StreamOwnership.CodeIsLastStored` | native/iroh_beam_nif/src/stream.rs:48-73 | in every interleaving a half's code is the one stored last by a reset or a stop of that half |
| `SoleCaller.NeverRefused` | native/iroh_beam_nif/src/stream.rs:403-475 | a caller alone on an unclosed half that waits for each result is never refused by its own earlier call, whatever others do on the other half |
| `SoleCaller.GivingUpMeansBusy` | native/iroh_beam_nif/src/stream.rs:403-436 | waiting is needed: the run in which a caller gives up, calls again and is refused |
| `SoleCaller.GivingUpMeansUnavailable` | native/iroh_beam_nif/src/stream.rs:93-104 | the run in which a caller that gave up finds the flag free and is still refused, because the lease has cleared it and not yet put the handle back |
| `SoleCaller.RefusedIff` | native/iroh_beam_nif/src/stream.rs:403-436 | patient or not: a call that has ended was refused exactly when its flag step found an owner or its slot step found an earlier lease being put back; otherwise it has its lease |
| `SoleCaller.CallBegins` | native/iroh_beam_nif/src/stream.rs:403-411 | on a half nobody closes a call always gets as far as the flag, whatever earlier calls left behind |
| `QueuePeak.GaugeIsSumOfGuards` | native/iroh_beam_nif/src/stream.rs:126-149 | the queued-bytes gauge is the sum of the guards in existence, so no drop takes it below zero |
| `QueuePeak.HighestIsMaximum` | native/iroh_beam_nif/src/stream.rs:127-129 | the history variable the peak is measured against is the true maximum of the gauge |
| `QueuePeak.PeakIsMaximumWhenQuiet` | native/iroh_beam_nif/src/stream.rs:127-143 | the peak never falls, never exceeds the maximum and equals it whenever no guard is being created |
| `QueuePeak.FailedSwapMeansProgress` | native/iroh_beam_nif/src/stream.rs:130-141 | a genuine failure of the swap means the peak strictly rose; a spurious one of an up-to-date swap changes nothing |
| `QueuePeak.QueueCounters.NewGuard` | native/iroh_beam_nif/src/stream.rs:127-143 | the loop itself, under any finite interference of other threads: the peak ends at least as high as the gauge was and no higher than somebody raised it |
| `Operation.OneOutcome` | native/iroh_beam_nif/src/lib.rs:121-148 | of completion and cancellation one wins; an ended operation sent one message or was cancelled once |
| `Operation.CancelSilences` | native/iroh_beam_nif/src/lib.rs:129-141 | a cancellation that returned true is neither followed nor preceded by a message in any run |
| `Operation.ReleasedBeforeReply` | native/iroh_beam_nif/src/endpoint.rs:748-785 | when a message goes out, the future with its lease, permit and queue guard is gone |
| `Operation.TellsTheOutcome` | native/iroh_beam_nif/src/endpoint.rs:748-785 | what the caller is told is the result of its future, or an internal error exactly when the future panicked; a smoke operation tells completion, its error or its panic |
| `Operation.NeverStuck` | native/iroh_beam_nif/src/endpoint.rs:748-785 | an operation that has not ended always has a next step of its own, and each brings it closer to its end |
| `Operation.CancelledMessageUnreachable` | native/iroh_beam_nif/src/endpoint.rs:759-782 | the error prepared for a lost selection is never sent |
| `Operation.ActiveCountsTasks` | native/iroh_beam_nif/src/lib.rs:261-322 | ACTIVE_OPERATIONS is the number of tasks begun and not ended |
| `IdentityRegistry.RegistryIsWhatIsHeld` | native/iroh_beam_nif/src/endpoint.rs:137-150 | the registry is the disjoint union of the names of binds under way and of endpoints that have not done their removal |
| `IdentityRegistry.NobodyElseReleases` | native/iroh_beam_nif/src/endpoint.rs:137-144 | no step takes away a name that belongs to another party |
| `IdentityRegistry.ReleasedOnce` | native/iroh_beam_nif/src/endpoint.rs:468-584 | over all release sites of a bind and all parties at its endpoint, the name is given back at most once, and exactly once when the bind is over without an endpoint, or its endpoint is released and the party that won the flag is through; a refused bind gives nothing back |
| `IdentityRegistry.ToldFailureHoldsNothing` | native/iroh_beam_nif/src/endpoint.rs:522-579 | release before reply: whoever is told that a bind failed no longer holds its name or a place in the gauge |
| `IdentityRegistry.CancelledOrTold` | native/iroh_beam_nif/src/endpoint.rs:509-580 | of the reply and the cancellation one wins: a cancelled bind tells nobody, leaves no endpoint and holds its name until its task is over; any other tells its caller |
| `IdentityRegistry.CancelledMayStillHold` | native/iroh_beam_nif/src/endpoint.rs:509-580 | the run in which a caller that cancelled is refused by its own earlier bind |
| `IdentityRegistry.ReleasedMayStillHold` | native/iroh_beam_nif/src/endpoint.rs:137-144 | the run in which a release has returned and the next bind of the name is refused: another party won the flag and has yet to remove the name |
| `IdentityRegistry.HeldAfterReleaseIff` | native/iroh_beam_nif/src/endpoint.rs:137-144 | once any party is through, the name is held exactly while some party is at the removal |
| `IdentityRegistry.RefusedIffHeld` | native/iroh_beam_nif/src/endpoint.rs:347-363 | a bind is refused exactly while somebody holds the name, and never because of a bind whose caller was told of failure |
| `IdentityRegistry.EndpointGauge` | native/iroh_beam_nif/src/endpoint.rs:137-144 | the endpoint gauge is the endpoints made and not yet counted down, and never underflows |
| `IdentityRegistry.ReplyHasGrounds` | native/iroh_beam_nif/src/endpoint.rs:475-579 | whatever a caller is told has happened: an endpoint only when one was bound and its owner was there, and each failure only after its own cause |
| `IdentityRegistry.NeverStuck` | native/iroh_beam_nif/src/endpoint.rs:428-586 | a bind that is not over always has a next step, and each brings it closer to its end |
| `EndpointBind.EndpointResource.ReleaseIdentity` | native/iroh_beam_nif/src/endpoint.rs:137-144 | only the first of any calls removes the name and counts down |
| `EndpointBind.EndpointResource.AbortEndpoint` | native/iroh_beam_nif/src/endpoint.rs:146-165 | true exactly for the call that took the native endpoint; the name is gone either way |
| `EndpointBind.Bind` | native/iroh_beam_nif/src/endpoint.rs:428-586 | succeeds exactly when no stage fails, with its native endpoint, and otherwise names the stage that failed; every failure leaves registry and gauge as they were, success adds exactly this name, and only a cancelled bind is silent |
| `Permits.CountersAreClaims` | native/iroh_beam_nif/src/endpoint.rs:101-131 | each endpoint's counters are its connections claimed and not yet released and its live accept permits, within their limits |
| `Permits.NeverUnderflows` | native/iroh_beam_nif/src/endpoint.rs:109-131 | no checked subtraction is ever cut off at zero |
| `Permits.ReleasedOnce` | native/iroh_beam_nif/src/connection.rs:64-95 | across close, owner down, drop and the closed waiter a connection gives back its slot and its place in the gauge once, and holds neither once it is closed and nobody is working on it |
| `Permits.ClaimGrantedIff` | native/iroh_beam_nif/src/endpoint.rs:117-123 | in every run a connection is admitted exactly while its endpoint holds fewer slots than its limit; then the counter goes up and the slot is held, otherwise nothing changes |
| `Permits.AcceptGrantedIff` | native/iroh_beam_nif/src/endpoint.rs:101-107 | an accept is let in exactly while fewer than the limit are waiting; otherwise nothing changes |
| `Permits.FirstCloserWins` | native/iroh_beam_nif/src/connection.rs:64-74 | the first of the parties that close a connection goes on to release it, later ones are through at once |
| `Permits.ReleaseFreesSlot` | native/iroh_beam_nif/src/endpoint.rs:125-131 | the release frees one slot of the connection's own endpoint and of no other |
| `Permits.DropFreesAccept` | native/iroh_beam_nif/src/endpoint.rs:109-115 | dropping a permit frees one accept of its own endpoint and of no other |
| `Permits.NeverStuck` | native/iroh_beam_nif/src/connection.rs:64-74 | a thread making or closing a connection can always take its next step, which brings it closer to its end, and nobody else's step moves it |
| `KeyFile.PublishedForGood` | native/iroh_beam_nif/src/identity.rs:372-400 | a published file is never replaced, changed or removed |
| `KeyFile.NeverPartial` | native/iroh_beam_nif/src/identity.rs:381-393 | where there was nothing, the path never shows anything but nothing or a whole 32-byte key |
| `KeyFile.SuccessIsThePublishedKey` | native/iroh_beam_nif/src/identity.rs:324-340 | whichever branch a caller took, the key it returns is the published one, then and ever after |
| `KeyFile.AllAgree` | native/iroh_beam_nif/src/identity.rs:403-416 | any two callers that succeed return the same key |
| `KeyFile.OriginalIsKept` | native/iroh_beam_nif/src/identity.rs:403-416 | what was at the path stays, and only a 32-byte regular file there lets anybody succeed, with its bytes |
| `KeyFile.OnlyFailuresFail` | native/iroh_beam_nif/src/identity.rs:372-400 | if no file-system call fails, the path held nothing or a key and no leftover file is in the way, every caller that returns has the key: losing the race is no error |
| `KeyFile.WrongFileIsInvalidFormat` | native/iroh_beam_nif/src/identity.rs:324-340 | with anything but a 32-byte regular file at the path and no failed call, every caller that returns is told that the format is invalid |
| `KeyFile.InvalidMeansWrongFile` | native/iroh_beam_nif/src/identity.rs:324-340 | and the format is called invalid only then, whatever fails |
| `KeyFile.FailedCallFails` | native/iroh_beam_nif/src/identity.rs:372-400 | a caller one of whose file-system calls failed, the removal aside, is told of an input or output error |
| `KeyFile.TemporaryIsRemoved` | native/iroh_beam_nif/src/identity.rs:381-393 | a caller that has created its temporary file does not return before it asked for its removal; where that was granted nothing is found under the name again |
| `KeyFile.SeenIsNeverMade` | native/iroh_beam_nif/src/identity.rs:403-416 | a caller that finds the file never makes a key of its own |
| `EndpointServer.HandOffFollowsPlan` | src/iroh_dist_endpoint.erl:238-271 | the n-th session kept goes to the n-th request kept; a session is closed only if one waits already, a request told busy only if one waits already |
| `EndpointServer.EverySessionOnce` | src/iroh_dist_endpoint.erl:238-271 | every session is handed over, closed or queued once, in arrival order; every request answered, turned away or waiting once; at most one session is queued and none while a request waits |
| `EndpointServer.NothingLeftOpen` | src/iroh_dist_endpoint.erl:272-291 | however the server ends, every session it received has been handed over or closed |
| `EndpointServer.NeverRegistered` | src/iroh_dist_endpoint.erl:250-258 | without a registration there is no entry, whatever else arrives |
| `EndpointServer.LinkIsLastRegistrant` | src/iroh_dist_endpoint.erl:203-258 | an entry is the last registrant's unless that one unregistered since, with the sums of its own updates since; nobody else's messages leave a trace |
| `EndpointServer.CloseReachesLastRegistrant` | src/iroh_dist_endpoint.erl:231-237 | closing a link stops that registrant, or reports not connected when it has left |

## Left out

- Iroh, QUIC, Tokio, Rustler and OTP internals: library behaviour, kept as the assumptions above.
- Weak memory ordering, mutex poisoning, `usize` overflow and timers: one interleaving of whole steps is assumed; a timeout is a cancellation or failure that may happen at any time.
- Cryptography, URL, address and ticket parsing: library calls; a target carries the result of parsing it, and node atoms are identified with their text.
- Writer.SendStream.WriteAll: may take any part of the data before it ends early; how the transport decides is not modelled.
- StreamOwnership.AbortReachesOperation: does not fix which of several abort codes a woken operation reads; it is the one stored last (`CodeIsLastStored`), and `close` stores 0.
- IdentityRegistry.RegistryIsWhatIsHeld: tracks resources, not the lifetime of native endpoints, because `abort` can release a name while a concurrent close still waits; a caller's process dying is not an event of its own.
- EndpointBind.Bind: is one bind with nothing else running; interleavings are in `IdentityRegistry`.
- EndpointServer.LinkIsLastRegistrant: counts updates handled after the registration; received traffic reported before it is lost in the code too, since input starts first.
- EndpointServer.EverySessionOnce: a session handed to a request whose process has died counts as handed over; the server does not watch the process.
- QueuePeak.QueueCounters.NewGuard: ends because the interference listed is finite; a loop whose every swap is beaten or fails for no reason need not end.
- KeyFile.OnlyFailuresFail: says nothing about a caller that never returns.
- `peer_info`, `status`, `resolve` and other reads of the endpoint server: replies without effect, one message that changes nothing.
- `validate_limits`, option validation, datagram flags, error and telemetry mapping, status maps: one-branch facts.
- The OTP handshake itself, cookies, relays, the accept loops and `dist_util` callbacks: process code around the modelled protocols.
- Telemetry up and down counts: a second registration overwrites an entry without a down event, so they do not balance.
