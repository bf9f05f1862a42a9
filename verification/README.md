# Verified models of the SeaMeet core

SeaMeet is a video conferencing system: end-to-end encrypted frames in the browser, a
selective forwarding unit and a signaling server in Rust. This project models the four
components that keep state over unbounded runs and proves what they are for, over every
run. `dafny verify dfyconfig.toml` checks all of it.

- **Encrypted frames** (`KdfChain`, `ReplayWindow`, `FrameFormat`, `FrameLayout`, `E2eeSession`,
  `E2eeWorker`, `E2eeSender`, `E2eeSenderKeys`, `E2eeReceiver`, `E2eeRule`, `E2eeCompleteness`,
  `E2eeNetwork`, `E2eeStall`, `E2eeSilence`). The sender steps a key chain once per frame; the receiver catches up,
  caches skipped keys and filters repetitions with a sliding bitmap. `E2eeWorker.Participant` and
  `KdfChain.ChainEntry` are the objects the worker updates, `E2eeSession` says what each
  handler does to their values, and the other modules reason about whole runs of sender,
  network and receiver.
- **Slot allocation and forwarding** (`MidPool`, `MediaState`, `MediaTask`,
  `MediaInvariant`, `MediaSequence`, `MediaNumbering`, `MediaRouting`, `Renegotiation`,
  `MediaForwarding`, `MediaMuting`, `MediaFlush`, `MediaBuffer`, `MediaOwn`, `MediaNotices`,
  `MediaStreams`, `MediaWitnesses`, `Backpressure`).
  `MediaState` is one receiver's media task as a state machine over its commands,
  `MediaTask.MediaTask` the loop's variables and handlers proved against it, and the
  others its invariants. `Backpressure` is the in-flight accounting between tasks.
- **RTP** (`RtpPacket`, `Rtcp`, `RtpSender`, `RtpCalls`, `OrderedMap`, `JitterBuffer`,
  `JitterTrace`, `JitterEviction`, `InboundPipeline`, `RtpPath`, `RtpDelivery`, `RtpOverflow`). Wire formats, numbering and fragmentation, the jitter
  buffer, the draining loop, and the whole path from send calls to published audio.
- **Signaling** (`Signaling`, `SignalingRuns`, `SignalingIndex`, `SignalingWitnesses`). Rooms,
  reverse index and generations, and concurrent connections whose lock-held regions are atomic steps.

`Common` and `Bits` hold machine integers, big-endian encodings and bitwise operators.

## Conventions

- HKDF, UTF-8 encoding and AES-GCM are function values of a `Suite`. Theorems name what
  they need of it: salts of 12 bytes (`Salted`), decryption inverting encryption with a
  16-byte tag (`Correct`), and for networks that may alter frames, that nothing delivered
  is a forgery under the nonce the code computes (`AllUnforged`). For networks that only
  lose, reorder and repeat, it is enough that no sent frame decrypts under another key id
  (`NoCrossOpening`), or that keys are installed before their frames arrive;
  `AssumptionsConsistent` shows the assumptions for unaltered frames to be consistent.
- Conditions the code needs appear as conditions of the theorems: key ids that differ in
  their low byte, installs before the first frame a sender counts for a key id, counters
  below 2^32. Which frames a receiver enqueues is stated for all runs; only
  `E2eeRule.CompleteInWindow` and `E2eeCompleteness.DeliveredInWindow`, which speak of
  runs without large gaps, ask for the first arrival within the catch-up limit and later
  ones never skipping more than 256 counters after the highest so far.
- Rust's fixed-width arithmetic is written out where it can wrap: sequence numbers, the
  RTCP length field, the deficit's cast to 32 bits and the in-flight counters. The jitter
  buffer's 32-bit indices are natural numbers; `RtpPath.IndicesFit` bounds them.

## Where code and documentation differ

- The sender's statistics comment speaks of payload bytes; the code counts whole packets
  (crates/seameet-rtp/src/sender.rs:115-118), and so does the model.
- The comment on the staleness check says a newer session's state is not destroyed. The
  check and the disconnect take the lock separately, so it can be, if another connection
  registers in between and still has its generation or a membership when the disconnect
  comes: `SignalingRuns.DestroysNewerIff`. `SignalingRuns.NewerMemberRemoved` and
  `SignalingWitnesses.UnregisteredMemberRemoved` are such runs.
- A counter more than 256 ahead is meant to be refused. The replay window has moved by then,
  so frames are lost that the chain could still open, and from 384 ahead on all of them
  until the key is installed again or removed: `E2eeStall.LeapRecoverableIff`,
  `E2eeSilence.SilentUntilLearned`.
- The request for more mids is meant to be what is missing. It is too low when the receiver
  lacks own mids, as while its own screen waits for one: `Renegotiation.DeficitIsExact`
  says exactly when, `MediaWitnesses.WaitingScreenStarves` is such a run.
- A maximum of zero members still admits one: `SignalingRuns.LimitHoldsIff`.
- Sequence numbers are meant to continue when a mid is reused. They do for mids never used
  for screens, and for a source that restarts its own screen
  (`MediaWitnesses.RestartInSequence`); `MediaNumbering.InSequenceIff` says exactly when
  they do in any run, and `MediaWitnesses.NumberRepeats` is a run in which they do not.
- A flush after renegotiation can give a source a screen mid without telling the receiver:
  `MediaRouting.AlwaysInformedIff` says exactly when, `MediaWitnesses.ScreenUnannounced` is
  such a run.
- A flush is meant to send what was buffered. If a screen packet comes first for a source
  without a slot, the slot it creates has no screen mid yet and the packet is dropped
  (crates/seameet-sfu/src/media.rs:1093-1147): `MediaFlush.AllGoOutIff` says exactly when
  everything goes out, and of the two packets buffered in `MediaWitnesses.ScreenUnannounced`
  one is written.
- The authenticated data is meant to bind the sender. Its parts are joined without lengths,
  so a longer id can stand for a shorter one and its codec header: `FrameLayout.AadSharedIff`
  says exactly when. Ids of one length are told apart (`FrameLayout.AadNamesSender`).

## Model

| member | source | states |
|---|---|---|
| `KdfChain.ChainEntry.GetEncryptionKey` | examples/meet/frontend/src/workers/e2ee-crypto.ts:101-106 | the entry object steps exactly as the chain function says and hands out the message key of its old position |
| `KdfChain.ChainEntry.GetDecryptionKey` | examples/meet/frontend/src/workers/e2ee-crypto.ts:108-166 | for every counter: cached key handed out once, late counters and too large gaps refused without a change, otherwise the chain stands past the counter with the passed keys cached and the oldest dropped |
| `KdfChain.ServeIsSound` | examples/meet/frontend/src/workers/e2ee-crypto.ts:108-166 | over every sequence of requests to a fresh chain: each returned key is the message key of its counter, no counter's key is returned twice, the cache holds at most 256 keys, all right and below the position, and from the first counter served on it still holds every unused key among the 256 before the head |
| `KdfChain.DecryptionGenuine` | examples/meet/frontend/src/workers/e2ee-crypto.ts:108-166 | a returned key is the message key of the requested counter, and the chain stays genuine |
| `KdfChain.DecryptionTracks` | examples/meet/frontend/src/workers/e2ee-crypto.ts:108-166 | a key handed out was not handed out before; unused keys near the head survive eviction; a refusal changes nothing |
| `KdfChain.DecryptionBounded` | examples/meet/frontend/src/workers/e2ee-crypto.ts:158-163 | the skipped-key cache never exceeds 256 entries |
| `KdfChain.CacheKeeps` | examples/meet/frontend/src/workers/e2ee-crypto.ts:147-163 | eviction spares every counter among the 256 before the target |
| `KdfChain.EncryptionKeysAt` | examples/meet/frontend/src/workers/e2ee-crypto.ts:101-106 | the sender's k-th key is the k-th message key of the root |
| `KdfChain.ReceiverAgreesWithSender` | examples/meet/frontend/src/workers/e2ee-crypto.ts:101-166 | whatever was requested before, a key returned for counter c is the one the sender used for its c-th frame |
| `ReplayWindow.CheckRefines` | examples/meet/frontend/src/workers/e2ee-crypto.ts:180-213 | one check of the shifted bitmap accepts exactly the fresh counters and then represents the grown set of accepted counters |
| `ReplayWindow.WindowRefinesSet` | examples/meet/frontend/src/workers/e2ee-crypto.ts:180-213 | over every run the bitmap's verdicts are those of the set specification: accept c exactly when it was never accepted and c > highest or highest - c < 128 |
| `ReplayWindow.NeverAcceptedTwice` | examples/meet/frontend/src/workers/e2ee-crypto.ts:180-213 | no counter is accepted twice in any run |
| `FrameFormat.NonceInjective` | examples/meet/frontend/src/workers/e2ee-crypto.ts:170-176 | under one salt, different 32-bit counters give different nonces |
| `FrameFormat.AadInjective` | examples/meet/frontend/src/workers/e2ee-crypto.ts:217-225 | for one sender the authenticated data determines codec header and frame header |
| `FrameFormat.ClearHeaderOverruns` | examples/meet/frontend/src/workers/e2ee-crypto.ts:229-256 | the clear header is longer than the frame, so that encrypting throws, exactly for short VP8 key frames and short VP9 frames that announce a longer header |
| `FrameFormat.ParseAssemble` | examples/meet/frontend/src/workers/e2ee-worker.ts:143-167 | parsing a frame undoes its assembly |
| `FrameLayout.NonceMixes` | examples/meet/frontend/src/workers/e2ee-crypto.ts:170-176 | the nonce is the salt with each digit of the counter's low 32 bits mixed into the digit of the same weight of its last word, the first eight bytes untouched |
| `FrameLayout.ClearPart` | examples/meet/frontend/src/workers/e2ee-crypto.ts:229-256 | how much stays readable, by first-byte bits: nothing of audio, ten bytes of VP8 key frames, three of other VP8 frames, one or three of VP9 frames |
| `FrameLayout.SentLayout` | examples/meet/frontend/src/workers/e2ee-worker.ts:143-167 | every frame of every admissible run lies on the wire as its clear bytes, the key id's low byte, the counter in network order, the ciphertext under the key and nonce of that counter, and the clear length; the ciphertext authenticates the sender's id and everything before it on the wire |
| `FrameLayout.AadSharedIff` | examples/meet/frontend/src/workers/e2ee-crypto.ts:217-225 | for any two senders the authenticated data is the same exactly if id bytes and codec header read the same when joined and the headers are equal |
| `FrameLayout.AadNamesSender` | examples/meet/frontend/src/workers/e2ee-crypto.ts:217-225 | so it is shared only if one id's bytes begin the other's, and for ids of one length it determines sender, codec header and frame header |
| `FrameLayout.ParsedIff` | examples/meet/frontend/src/workers/e2ee-worker.ts:197-227 | a received frame parses exactly if it has 22 bytes and clear part, header and trailer fit; the parts join back to it, except for the trailer's top bit |
| `E2eeSession.FallbackOpens` | examples/meet/frontend/src/workers/e2ee-worker.ts:264-292 | the fallback takes the latest other entry whose cached key opens the frame, spends that key, records the counter for that entry's key id and changes nothing else |
| `E2eeSession.FallbackDrops` | examples/meet/frontend/src/workers/e2ee-worker.ts:264-297 | the frame is dropped without a change exactly if there is no such entry |
| `E2eeWorker.Participant.SetKey` | examples/meet/frontend/src/workers/e2ee-worker.ts:355-371 | replaces the chain of the same key id, puts the new one last and keeps counters and replay windows; `E2eeSenderKeys.LogFollowsEvents` says what that is for |
| `E2eeWorker.Participant.PurgeOldKeys` | examples/meet/frontend/src/workers/e2ee-worker.ts:386-392 | keeps exactly the chains from the given key id on |
| `E2eeWorker.Participant.RemoveKeys` | examples/meet/frontend/src/workers/e2ee-worker.ts:374-384 | drops chains, counters and windows of the participant |
| `E2eeWorker.Participant.CheckReplay` | examples/meet/frontend/src/workers/e2ee-crypto.ts:180-213 | the stored windows change as the window function says |
| `E2eeWorker.Participant.EncryptFrame` | examples/meet/frontend/src/workers/e2ee-worker.ts:109-177 | refuses without a key, throws on a frame shorter than its clear header before any state changes, otherwise advances counter and chain once and emits the sealed frame |
| `E2eeWorker.Participant.DecryptFrame` | examples/meet/frontend/src/workers/e2ee-worker.ts:181-302 | matching entry, replay check, key derivation, decryption and fallback loop, each with its effect on chains and windows |
| `E2eeSender.SetKeyKeepsLockstepIff` | examples/meet/frontend/src/workers/e2ee-worker.ts:355-371 | installing a key keeps header counter and chain position in lockstep exactly when no frame was counted for that key id |
| `E2eeSender.LockstepAlways` | examples/meet/frontend/src/workers/e2ee-worker.ts:123-146 | in every run where installs precede the frames of their key id, the k-th frame under a key id carries counter k and is sealed with that key's k-th message key |
| `E2eeSender.NoncesNeverRepeat` | examples/meet/frontend/src/workers/e2ee-worker.ts:132-141 | in every such run of fewer than 2^32 events no two frames of a key id share a nonce |
| `E2eeSenderKeys.LogFollowsEvents` | examples/meet/frontend/src/workers/e2ee-worker.ts:123-146 | for every run of installs, purges and frames, the log is a function of the events alone: each frame that fits its clear header is sealed under the key installed last among those not purged since, with that key's next message key, and nothing is sent while no key is held |
| `E2eeSenderKeys.RotationTakesEffect` | examples/meet/frontend/src/workers/e2ee-worker.ts:355-371 | after any run, the frame following an install is the first one sealed under the new key |
| `E2eeSenderKeys.LastIsCurrent` | examples/meet/frontend/src/workers/e2ee-worker.ts:123-125 | the last entry is that of the key installed last and still held; there is none exactly if no key is held |
| `E2eeReceiver.FallbackNeverOpens` | examples/meet/frontend/src/workers/e2ee-worker.ts:264-292 | the fallback over other entries never opens a frame that is no forgery under the nonce the code uses, since the key id byte is authenticated |
| `E2eeReceiver.DeliverOne` | examples/meet/frontend/src/workers/e2ee-worker.ts:205-302 | one delivery of arbitrary bytes enqueues nothing, or the original of the sent frame that its own header names, whose counter was not accepted before, and keeps the session's invariants |
| `E2eeReceiver.DeliverKnown` | examples/meet/frontend/src/workers/e2ee-worker.ts:233-259 | a sent frame whose key is installed does the same with correct decryption as the only assumption |
| `E2eeReceiver.AuthenticDelivery` | examples/meet/frontend/src/workers/e2ee-worker.ts:181-302 | against any network, altered frames included but no forgeries: each frame enqueued is, byte for byte, the sent frame named by the delivery that led to it, outputs come in the order of their deliveries, and no two of these deliveries name the same frame |
| `E2eeReceiver.UnalteredDelivery` | examples/meet/frontend/src/workers/e2ee-worker.ts:205-259 | an unaltered frame touches only its key's chain and window and is enqueued exactly when these let it through |
| `E2eeReceiver.ArriveExactly` | examples/meet/frontend/src/workers/e2ee-worker.ts:234-243 | after the first decrypted counter, a frame is enqueued exactly when it is fresh and skips at most 256 counters after the highest; chain and window stay in step |
| `E2eeRule.RunDecides` | examples/meet/frontend/src/workers/e2ee-crypto.ts:108-213 | for every list of counters, whatever the gaps: a frame is enqueued exactly if it is fresh (never accepted, and ahead of the highest counter or less than 128 behind) and within limits (the catch-up limit for the first one, then after the first one and at most 256 counters skipped after the largest enqueued) |
| `E2eeRule.ArriveDecides` | examples/meet/frontend/src/workers/e2ee-worker.ts:234-243 | one arrival at any chain and window that fit the rule follows it, and both fit afterwards |
| `E2eeRule.CompleteInWindow` | examples/meet/frontend/src/workers/e2ee-crypto.ts:108-213 | over every list of counters in which no forward gap exceeds the limits, stragglers included: enqueued are exactly the fresh counters that are not before the first decrypted one |
| `E2eeStall.EnqueuedIff` | examples/meet/frontend/src/workers/e2ee-worker.ts:234-243 | in any state of chain and window an unaltered frame is enqueued exactly when it is fresh and within the chain's reach |
| `E2eeStall.HeaderMovesState` | examples/meet/frontend/src/workers/e2ee-worker.ts:233-297 | a received frame that is no forgery moves the chain and window its header names as the original would, whatever its payload, and nothing else, the fallback included |
| `E2eeStall.AfterLeap` | examples/meet/frontend/src/workers/e2ee-worker.ts:235-243 | after a counter h beyond the chain's reach, exactly the counters above h - 128 and at most 256 steps ahead of the chain are still enqueued, none above h |
| `E2eeStall.LeapRecoverableIff` | examples/meet/frontend/src/workers/e2ee-crypto.ts:143-145 | no frame at all can be enqueued after the leap exactly if h is at least 128 beyond the chain's reach |
| `E2eeStall.StalledForever` | examples/meet/frontend/src/workers/e2ee-worker.ts:205-302 | then no sequence of frames of that key has any of them enqueued or moves the chain |
| `E2eeStall.ReinstallRecoversIff` | examples/meet/frontend/src/workers/e2ee-worker.ts:355-384 | after installing the key again a frame is enqueued exactly if it is fresh and within the catch-up limit; without a window the limit alone decides |
| `E2eeSilence.SilentIff` | examples/meet/frontend/src/workers/e2ee-crypto.ts:108-213 | a key lets nothing through any more exactly if the highest counter seen is at its limit or beyond and all counters within window and limits were seen; before the first decryption too |
| `E2eeSilence.SilentUntilLearned` | examples/meet/frontend/src/workers/e2ee-worker.ts:181-371 | over every run, whatever arrives for this key or others, a silent key has no frame enqueued until it is installed again |
| `E2eeSilence.LeapSilencesIff` | examples/meet/frontend/src/workers/e2ee-crypto.ts:143-145 | after a fresh install and counter 1, a next counter silences the key exactly from 386 on |
| `E2eeSilence.EarlyLeapSilencesIff` | examples/meet/frontend/src/workers/e2ee-crypto.ts:127-130 | before anything was decrypted, a first counter silences the key exactly from 30129 on |
| `E2eeReceiver.EndToEnd` | examples/meet/frontend/src/workers/e2ee-worker.ts:109-302 | sender run and receiver run together: outputs match the frames their deliveries name, none twice, and any sent frame delivered next is enqueued exactly when its chain and window let it through |
| `E2eeCompleteness.CompleteDelivery` | examples/meet/frontend/src/workers/e2ee-worker.ts:181-302 | for every run of the worker over unaltered frames of any number of keys, with any losses, repetitions, gaps, installs, re-installs and purges, frames before their key's install included: a frame is enqueued, as its original, exactly when its key is installed and the key's rule lets it through |
| `E2eeCompleteness.DeliveredInWindow` | examples/meet/frontend/src/workers/e2ee-worker.ts:181-302 | in particular, for a key learned once and no gap beyond the limits: exactly when it is fresh among the frames of its key and not before the first of them |
| `E2eeCompleteness.UnknownKey` | examples/meet/frontend/src/workers/e2ee-worker.ts:233-297 | a frame whose key is not installed, and that opens under no other, changes nothing |
| `E2eeNetwork.LossyNetworkDelivers` | examples/meet/frontend/src/workers/e2ee-worker.ts:109-302 | for every sending run and every schedule of loss, reordering and duplication: each frame enqueued is the original of the very frame its delivery carried, none twice, provided no sent frame decrypts under another installed key id |
| `E2eeNetwork.InstalledKeysDeliver` | examples/meet/frontend/src/workers/e2ee-worker.ts:233-259 | the same from correct decryption alone, when each frame arrives while its key is installed |
| `E2eeNetwork.AssumptionsConsistent` | examples/meet/frontend/src/workers/e2ee-crypto.ts:34-34 | salts of 12 bytes, correct decryption with a tag of 128 bits and no sent frame opening under another key id are consistent: a cipher that expands by 16 bytes meets these three for every key table and every sending run (it says nothing of altered frames) |
| `MidPool.FindFree` | crates/seameet-sfu/src/media.rs:1062-1073 | the search loop returns the first mid of the kind outside the excluded set, if there is one |
| `MidPool.ExcludeOne` | crates/seameet-sfu/src/media.rs:979-994 | excluding one more mid shortens the candidates by one exactly if it was one |
| `MediaInvariant.ReachableInv` | crates/seameet-sfu/src/media.rs:217-275 | in every state reachable through commands the mids held by slots are pairwise distinct, listed with the right kind, and none is an own mid of the receiver |
| `MediaInvariant.StepKeeps` | crates/seameet-sfu/src/media.rs:357-600 | each command keeps that invariant |
| `MediaInvariant.GetOrCreateKeeps` | crates/seameet-sfu/src/media.rs:1008-1112 | so does the allocator |
| `MediaSequence.SequenceNumbersContinue` | crates/seameet-sfu/src/media.rs:558-580 | for a mid never used for a screen in the run, the k-th packet written to it carries number k - 1, across all sources that own, leave and reuse it |
| `MediaSequence.EmitContinues` | crates/seameet-sfu/src/media.rs:1131-1147 | one write carries the next number of its mid and advances only the owner's counter |
| `MediaSequence.GetOrCreateContinues` | crates/seameet-sfu/src/media.rs:1093-1111 | acquiring mids keeps every next number, through the watermarks, unless the mid becomes a screen mid |
| `MediaSequence.PeerLeftContinues` | crates/seameet-sfu/src/media.rs:558-574 | a departing source leaves its counters as watermarks, so all numbering continues |
| `MediaSequence.GainScreenContinuesIff` | crates/seameet-sfu/src/media.rs:1031-1048 | a mid gained as a screen mid continues exactly when the screen counter happens to equal its next number |
| `MediaSequence.StopScreenContinuesIff` | crates/seameet-sfu/src/media.rs:581-588 | a stopped screen's mid continues exactly when its watermark already equals the screen counter |
| `MediaSequence.StoppedScreenRepeats` | crates/seameet-sfu/src/media.rs:581-588 | where that fails, a camera that takes the mid over repeats number 0, from any such state |
| `MediaSequence.ContinuousIff` | crates/seameet-sfu/src/media.rs:340-600 | for every run and every mid: before and after every command the numbers so far are right and so is the one that the owner's counter or the watermark holds ready, exactly if every gain of the mid by a screen, flushes included, has its next number and every stop of a screen on it has its watermark |
| `MediaNumbering.InSequenceIff` | crates/seameet-sfu/src/media.rs:340-600 | for every run and every mid: the k-th packet sent on the mid carries number k - 1, for all k, exactly if nothing is sent on it while it is off track; a stop whose watermark is wrong or a gain by a screen whose counter is wrong puts it off track, a right one back on, and sources that come and go pass its state on, flushes included |
| `MediaNumbering.StepWatched` | crates/seameet-sfu/src/media.rs:357-600 | each command changes a mid's state (on track, off track, spoiled) exactly as that rule says |
| `MediaWitnesses.RestartInSequence` | crates/seameet-sfu/src/media.rs:581-588 | a run in which the same source stops and restarts its screen: the numbers continue although the watermark was wrong in between |
| `MediaWitnesses.NumberRepeats` | crates/seameet-sfu/src/media.rs:581-588 | a run of three commands in which number 0 is sent twice on mid 4 |
| `MediaRouting.ScreensAnnounced` | crates/seameet-sfu/src/media.rs:370-433 | in every run where no buffered screen packet is flushed, a source's screen mid is the one the latest routing message about it names, through stop, restart, departure and return |
| `MediaRouting.FlushedPacketInformsIff` | crates/seameet-sfu/src/media.rs:483-517 | a flushed packet sends no routing message, so the receiver stays informed exactly when the packet gains no screen mid or only one already announced |
| `MediaRouting.AlwaysInformedIff` | crates/seameet-sfu/src/media.rs:340-600 | for every run: the receiver knows all screen mids before and after every command exactly if no flush gives a source a screen mid that was not announced before |
| `MediaWitnesses.ScreenUnannounced` | crates/seameet-sfu/src/media.rs:483-517 | a run in which a flush gives source 7 screen mid 4 and no routing message was ever sent |
| `MediaRouting.OnMediaInforms` | crates/seameet-sfu/src/media.rs:357-433 | a live packet keeps the receiver informed, whatever mids it acquires |
| `MediaForwarding.KindsAlwaysRight` | crates/seameet-sfu/src/media.rs:1136-1147 | in every run audio went out on audio mids only, camera and screen on video mids only, and no source has more than 500 packets buffered |
| `MediaForwarding.WrittenIffSuffices` | crates/seameet-sfu/src/media.rs:357-400 | a packet that is not muted is written at once, exactly once, if and only if the free mids suffice: a pair for a new source, two video mids if it starts with its screen |
| `MediaForwarding.HeldBackIffNoPair` | crates/seameet-sfu/src/media.rs:373-388 | a packet is buffered exactly when its source has no slot and no pair of mids is free |
| `MediaForwarding.ScreenGoesWhereAnnounced` | crates/seameet-sfu/src/media.rs:390-433 | a live screen packet goes out on the mid that the latest routing message names |
| `MediaMuting.MutedFollowsCommands` | crates/seameet-sfu/src/media.rs:550-555 | in every run a source is muted exactly if some command muted it and no later one unmuted it or said it left |
| `MediaMuting.PacketFate` | crates/seameet-sfu/src/media.rs:357-388 | in every run an audio packet of a source so muted changes nothing; any other is written at once exactly if the mids suffice, and buffered exactly if its source has no slot and no pair is free |
| `MediaFlush.FlushServes` | crates/seameet-sfu/src/media.rs:483-517 | a flush that finds enough mids writes exactly the buffered packets at most one second old, each once, source by source in arrival order, but for a screen packet that comes first for a source without a slot |
| `MediaFlush.FlushOneExactly` | crates/seameet-sfu/src/media.rs:483-517 | what a flush writes of one source's packets, whatever mids are free |
| `MediaFlush.AllGoOutIff` | crates/seameet-sfu/src/media.rs:1093-1147 | all of them go out exactly if the mids suffice and no screen packet comes first for a source without a slot |
| `MediaBuffer.BufferHolds` | crates/seameet-sfu/src/media.rs:373-388 | in every run a source's buffer holds the first 500 packets held back since it last left or was flushed, in arrival order |
| `MediaBuffer.OfferServesBuffers` | crates/seameet-sfu/src/media.rs:450-517 | so an offer that brings enough mids writes those of them that are at most one second old, but for that leading screen packet |
| `MediaBuffer.NeverMoreThanReceived` | crates/seameet-sfu/src/media.rs:357-517 | over every run no packet is written more often than it came in, those still buffered counted as well |
| `MediaBuffer.SilentAfterLeaving` | crates/seameet-sfu/src/media.rs:558-580 | after a source left, nothing of it is written until a packet of it comes in again |
| `MediaOwn.OwnAreFirst` | crates/seameet-sfu/src/media.rs:450-477 | in every run the pool lists each mid as first announced, in that order, and the first audio and first video mid are the receiver's own from then on |
| `MediaOwn.ShareFollowsCommands` | crates/seameet-sfu/src/media.rs:533-545 | in every run the receiver shares as its last command says, has an own screen mid only while sharing, and waits for one exactly while sharing without |
| `MediaOwn.OfferGivesScreenIff` | crates/seameet-sfu/src/media.rs:450-477 | a waiting screen share gets a mid exactly if the offer brings a video mid besides one that the camera still lacks |
| `MediaNotices.NoticesExact` | crates/seameet-sfu/src/media.rs:390-433 | in every run a routing message is sent exactly when a live packet that is not muted gains its source a screen mid, and names the mid first fit gives it; more mids are requested exactly when the peer count changes and the free mids fall short, by that number |
| `MediaNotices.StepKeepsMids` | crates/seameet-sfu/src/media.rs:558-588 | a source loses its mids by leaving, its screen mid by stopping, and neither otherwise |
| `MediaNotices.MidsStay` | crates/seameet-sfu/src/media.rs:1008-1030 | a source that neither leaves nor stops its screen keeps its mids over every continuation |
| `MediaNotices.GainedIff` | crates/seameet-sfu/src/media.rs:370-388 | a source without a slot gets one from a command other than an offer exactly if it is a packet of its own that is not muted and a pair is free |
| `MediaStreams.StreamsNeverMix` | crates/seameet-sfu/src/media.rs:1114-1147 | in every run, flushes included, between departures and screen stops: two packets are written to the same mid exactly if they belong to the same source's audio, camera or screen |
| `Renegotiation.NoneIsExact` | crates/seameet-sfu/src/media.rs:957-1002 | no request is made exactly when first-fit creation succeeds for every peer still without a slot |
| `Renegotiation.DeficitIsExact` | crates/seameet-sfu/src/media.rs:957-1002 | for every pool: the requested deficit never exceeds the least number of pairs that serves all peers without a slot, and equals it exactly when no own audio mid is missing, missing own video mids do not eat into the sources' share, and the shortfall fits 32 bits |
| `Renegotiation.PairsNeededIsLeast` | crates/seameet-sfu/src/media.rs:450-477 | k offered pairs let all of them get a slot if and only if k is at least that least number |
| `Renegotiation.RequestedOfferServesIff` | crates/seameet-sfu/src/media.rs:957-1002 | an offer of exactly the requested pairs serves all of them under that condition and no other |
| `MediaWitnesses.WaitingScreenStarves` | crates/seameet-sfu/src/media.rs:533-537 | a run in which the receiver's own screen waits for a mid, one pair is requested and offered, and the peer still gets no slot |
| `Renegotiation.OfferServes` | crates/seameet-sfu/src/media.rs:450-477 | what any offer achieves when own mids are missing: each missing own mid costs the sources one offered mid |
| `Renegotiation.CreatesIffEnough` | crates/seameet-sfu/src/media.rs:1008-1112 | first-fit creation succeeds for a list of new sources exactly when each kind has that many free mids |
| `Renegotiation.RequestCountsFree` | crates/seameet-sfu/src/media.rs:957-1002 | the request's counting of free mids equals the allocator's, own mids included |
| `MediaTask.MediaTask.GetOrCreateSlot` | crates/seameet-sfu/src/media.rs:1008-1112 | the slot table after the call and whether there is a slot, for every case |
| `MediaTask.MediaTask.WriteForwardedRtp` | crates/seameet-sfu/src/media.rs:1114-1147 | slot creation, the number written, and the counter advanced |
| `MediaTask.MediaTask.Media` | crates/seameet-sfu/src/media.rs:357-433 | muting, slot lookup, buffering, writing and the routing message |
| `MediaTask.MediaTask.RenegotiationOffer` | crates/seameet-sfu/src/media.rs:450-517 | new mids are listed, missing own mids taken, then the buffers flushed without stale packets |
| `MediaTask.ListThenAssign` | crates/seameet-sfu/src/media.rs:770-781 | listing all new mids first and assigning own mids in a second pass equals doing both mid by mid |
| `MediaTask.MediaTask.RemovePeer` | crates/seameet-sfu/src/media.rs:558-580 | the slot goes and its three counters become watermarks |
| `MediaTask.MediaTask.Handle` | crates/seameet-sfu/src/media.rs:340-600 | each command changes the task's variables as the state machine says, whose runs the other rows are about |
| `Backpressure.AlwaysAccounted` | crates/seameet-sfu/src/media.rs:98-115 | over every interleaving of load, add, send, dequeue and release by N tasks: a live peer's counter equals queued, reserved and in-hand packets of the kind, and counter plus tasks past the check stays below cap + N |
| `Backpressure.ReleaseIsExact` | crates/seameet-sfu/src/media.rs:357-365 | a release lowers the counter by exactly one, so it never underflows |
| `Backpressure.BoundIsReached` | crates/seameet-sfu/src/media.rs:880-906 | the bound cannot be lowered: for every N and either kind some interleaving reaches cap + N - 1 |
| `Backpressure.LoadPassesIff` | crates/seameet-sfu/src/media.rs:880-906 | an idle task passes the check exactly if the counter of the kind is below that kind's cap |
| `RtpPacket.ToBytes` | crates/seameet-rtp/src/packet.rs:85-108 | the loop writes the encoding |
| `RtpPacket.FromBytes` | crates/seameet-rtp/src/packet.rs:111-168 | the loop reads the packet, or gives the error of the first check that fails |
| `RtpPacket.RoundTripIff` | crates/seameet-rtp/src/packet.rs:85-168 | decoding an encoded packet gives it back exactly when version is 2, the payload type has 7 bits, and the CSRC count is the list's length and at most 15 |
| `RtpPacket.EncodeDecode` | crates/seameet-rtp/src/packet.rs:111-168 | every accepted buffer is the encoding of the packet it decodes to |
| `RtpPacket.WireLayout` | crates/seameet-rtp/src/packet.rs:85-108 | every byte of an encoded packet as in section 5.1 of RFC 3550: flags, marker and type, number, timestamp and SSRC in network order, the CSRC list and the payload |
| `RtpPacket.RefusedIff` | crates/seameet-rtp/src/packet.rs:111-142 | which buffers are refused and with which error, by length and first byte |
| `Rtcp.ToBytes` | crates/seameet-rtp/src/rtcp.rs:46-98 | the loop writes the encoding |
| `Rtcp.FromBytes` | crates/seameet-rtp/src/rtcp.rs:101-171 | the decoder's result for every buffer, including the slice failure |
| `Rtcp.RoundTripIff` | crates/seameet-rtp/src/rtcp.rs:46-171 | a packet comes back from the wire exactly when it is no NACK of more than 65533 numbers |
| `Rtcp.NackDecoded` | crates/seameet-rtp/src/rtcp.rs:65-87 | what becomes of a longer list: the length field wraps, so the list is cut or decoding aborts |
| `Rtcp.NackMeaning` | crates/seameet-rtp/src/rtcp.rs:141-158 | a number is reported lost exactly when some entry has it as PID or as PID + k + 1 mod 2^16 for a set bit k, as in section 6.2.1 of RFC 4585 |
| `Rtcp.PanicsIff` | crates/seameet-rtp/src/rtcp.rs:134-141 | decoding aborts exactly on the bytes of a NACK of at least 12 bytes whose length field is 0 or 1 |
| `Rtcp.WireLayout` | crates/seameet-rtp/src/rtcp.rs:46-98 | every byte of an encoded packet: version and format, type, length, the zero sender SSRC of feedback, the SSRC, and each lost number with an empty mask |
| `Rtcp.LengthField` | crates/seameet-rtp/src/rtcp.rs:46-98 | the length field is the packet's 32-bit words minus one, modulo 2^16 |
| `Rtcp.DecodedIff` | crates/seameet-rtp/src/rtcp.rs:101-171 | which buffers decode, and to which kind of packet |
| `RtpSender.SentInOrder` | crates/seameet-rtp/src/sender.rs:51-124 | over every sequence of calls the i-th packet sent carries i mod 65536, also when the channel closes under way, and while it is open the statistics are the number of packets and all their bytes |
| `RtpSender.ChunksJoin` | crates/seameet-rtp/src/sender.rs:76-77 | a frame splits into non-empty fragments of at most 1200 bytes, all but the last full, that join back to it |
| `RtpSender.VideoReassembles` | crates/seameet-rtp/src/sender.rs:71-87 | a video frame's packets carry the sender's source and the frame's timestamp, payloads that join back to it, and the marker on the last only |
| `RtpSender.AudioArrives` | crates/seameet-rtp/src/sender.rs:57-66 | an audio call on an open channel adds one packet, which decodes to its payload, timestamp and source, the audio type and no marker |
| `RtpCalls.ChannelCarriesCalls` | crates/seameet-rtp/src/sender.rs:51-124 | over every sequence of audio and video calls and any lifetime of the channel, it carries exactly the packets the calls stand for, in call order, up to where it closes |
| `RtpCalls.ChunksAreRuns` | crates/seameet-rtp/src/sender.rs:76-77 | fragment i of a frame is its bytes from 1200 i on |
| `RtpSender.RtpSender.NextSeq` | crates/seameet-rtp/src/sender.rs:51-55 | returns the number and advances it with wrap-around |
| `RtpSender.RtpSender.SendPacket` | crates/seameet-rtp/src/sender.rs:115-124 | statistics count the packet even when the closed channel refuses it |
| `RtpSender.RtpSender.SendVideoFrame` | crates/seameet-rtp/src/sender.rs:71-87 | fragments are numbered and sent until one is refused |
| `JitterBuffer.UnwrapExactIff` | crates/seameet-rtp/src/jitter.rs:74-105 | the unwrapped index is the true one exactly when it is less than 2^15 ahead of or at most 2^15 behind the highest, or a larger jump before the first wrap |
| `JitterBuffer.UnwrapRecovers` | crates/seameet-rtp/src/jitter.rs:74-105 | over every run within that reach the true indices are recovered across any number of wraps |
| `JitterBuffer.PollTakesEarliest` | crates/seameet-rtp/src/jitter.rs:145-202 | a poll takes the earliest packet and declares lost exactly the indices before it; the branch for an earliest index not ahead is never taken |
| `JitterBuffer.PushSound` | crates/seameet-rtp/src/jitter.rs:108-136 | a push keeps the buffer ordered, within capacity, with nothing behind the next index |
| `JitterBuffer.PollAllInOrder` | crates/seameet-rtp/src/jitter.rs:145-202 | polling until empty ends and yields the buffered packets in index order |
| `JitterEviction.PushKeepsNewest` | crates/seameet-rtp/src/jitter.rs:125-136 | a push that is not late keeps the newest: each entry kept has a larger index than each one dropped, and nothing is dropped unless the buffer outgrew its capacity, which is then used up |
| `JitterEviction.NewestAlwaysKept` | crates/seameet-rtp/src/jitter.rs:125-136 | in every run, with a capacity of at least one, a packet ahead of all buffered ones is kept |
| `JitterEviction.ArrivalsCounted` | crates/seameet-rtp/src/jitter.rs:108-124 | over every run the statistics count the packets accepted, the late ones, and those behind the one accepted before |
| `JitterBuffer.JitterBuffer.UnwrapSeq` | crates/seameet-rtp/src/jitter.rs:74-105 | the fields change and the index results as the unwrapping function says |
| `JitterBuffer.JitterBuffer.PushPacket` | crates/seameet-rtp/src/jitter.rs:108-136 | late, reordered, inserted and evicted packets and the counters |
| `JitterBuffer.JitterBuffer.PollPacket` | crates/seameet-rtp/src/jitter.rs:145-202 | the packet returned, the loss events and the new position |
| `JitterTrace.AlwaysConsistent` | crates/seameet-rtp/src/jitter.rs:108-202 | over every interleaving of pushes, polls and drains: each index from the first emitted to the next is emitted or reported lost exactly once and in order; pushed = received + late and received = emitted + buffered + evicted + overwritten; the events are the lost indices |
| `JitterTrace.PollShowsFates` | crates/seameet-rtp/src/jitter.rs:145-202 | a poll returns the packet and adds the events that its decided fates name |
| `InboundPipeline.InboundPipeline.Drain` | crates/seameet-pipeline/src/inbound.rs:70-97 | polls until empty, publishes decoded audio, stops at the first decoder error without counting the cycle |
| `InboundPipeline.DrainsInOrder` | crates/seameet-pipeline/src/inbound.rs:70-82 | what is published is the audio of the buffered packets in index order up to the first decoder error; otherwise the buffer ends empty |
| `RtpPath.ReadsWhatWasSent` | crates/seameet-rtp/src/jitter.rs:108-202 | from sender calls over any loss, repetition and reordering within reach: what is read at an index is what was sent there, in send order, each at most once |
| `RtpPath.EverythingArrives` | crates/seameet-pipeline/src/inbound.rs:70-82 | if all sent packets arrive and fit, and reading starts afterwards, reading until empty yields all of them in send order |
| `RtpPath.PublishesInOrder` | crates/seameet-pipeline/src/inbound.rs:70-82 | then the pipeline publishes their audio in send order |
| `RtpPath.IndicesFit` | crates/seameet-rtp/src/jitter.rs:33-50 | below 2^32 packets no index, position or cycle count leaves its 32-bit range |
| `RtpDelivery.ReadsTheCalls` | crates/seameet-rtp/src/jitter.rs:108-202 | from the calls over any loss, repetition and reordering within reach: each packet read is the one that the calls stand for at its index, in call order, each at most once |
| `RtpDelivery.ReadsAllCalls` | crates/seameet-rtp/src/jitter.rs:108-202 | if everything arrives and fits, reading yields the packets of all calls in call order |
| `RtpDelivery.PublishesTheCalls` | crates/seameet-pipeline/src/inbound.rs:70-82 | then the pipeline publishes the decodings of the audio calls' payloads in call order, up to the first refused, whatever video was sent in between |
| `RtpOverflow.BufferHoldsNewest` | crates/seameet-rtp/src/jitter.rs:125-136 | whatever arrives before the first read, the buffer holds the largest indices that arrived, as many as its capacity |
| `RtpOverflow.ReadsNewestCalls` | crates/seameet-rtp/src/jitter.rs:108-202 | so reading afterwards yields the calls' packets of these indices in call order |
| `Signaling.SignalingState.JoinRoom` | crates/seameet-signaling/src/engine.rs:297-319 | rooms and reverse index after a join, and whether it was the first member |
| `Signaling.SignalingState.LeaveOne` | crates/seameet-signaling/src/engine.rs:323-342 | rooms and reverse index after leaving, and whether the room is gone |
| `Signaling.SignalingState.DisconnectAll` | crates/seameet-signaling/src/engine.rs:346-362 | the loop over the reverse index |
| `Signaling.SignalingState.Prune` | crates/seameet-signaling/src/engine.rs:152-163 | exactly the members with closed channels go |
| `Signaling.JoinAddsMember` | crates/seameet-signaling/src/engine.rs:112-116 | a join adds exactly one membership with the new channel and reports a first member exactly when the room had none |
| `Signaling.PruneMembers` | crates/seameet-signaling/src/engine.rs:152-163 | exactly the memberships with a closed channel end; the reverse index keeps them |
| `Signaling.LeaveMembers` | crates/seameet-signaling/src/engine.rs:323-342 | exactly one membership ends; the flag says whether the room is absent afterwards |
| `Signaling.DisconnectMembers` | crates/seameet-signaling/src/engine.rs:346-362 | disconnecting p removes p from every room, changes no other member, and flags a listed room empty exactly when it is absent afterwards |
| `SignalingRuns.ReachableKeeps` | crates/seameet-signaling/src/engine.rs:905-1151 | in every reachable state of concurrent connections each member has its room in its duplicate-free reverse index, and no room exceeds the limit |
| `SignalingIndex.IndexIsExact` | crates/seameet-signaling/src/engine.rs:297-362 | in every reachable state a participant's index lists exactly the rooms it joined and neither left nor was disconnected from since, each once, in the order joined |
| `SignalingIndex.DisconnectReports` | crates/seameet-signaling/src/engine.rs:346-362 | so a disconnect reports exactly these rooms, each once, flagged empty exactly if absent afterwards |
| `SignalingIndex.LeaveIndex` | crates/seameet-signaling/src/engine.rs:323-342 | leaving takes the room out of the participant's index and changes nobody else's |
| `SignalingIndex.ChannelIsLatest` | crates/seameet-signaling/src/engine.rs:297-319 | in every reachable state a participant is indexed exactly while some room is listed for it, under the channel of its latest admitted join |
| `SignalingIndex.JoinAdmittedIff` | crates/seameet-signaling/src/engine.rs:620-660 | a join under the lock is admitted exactly if the room does not exist or has fewer than the maximum of members with an open channel |
| `SignalingIndex.PreCheckAdmitsIff` | crates/seameet-signaling/src/engine.rs:1020-1060 | the check before registering passes exactly if the room does not exist or has fewer than the maximum of members, closed channels included |
| `SignalingRuns.LimitHoldsIff` | crates/seameet-signaling/src/engine.rs:614-660 | no room ever has more than the maximum of members, exactly for a maximum of at least one: a room that does not exist is never full |
| `SignalingRuns.LockedJoinKeeps` | crates/seameet-signaling/src/engine.rs:620-660 | pruning, re-check and join under one lock keep index and limit |
| `SignalingRuns.PassingCheckIsLatest` | crates/seameet-signaling/src/engine.rs:1115-1125 | a cleanup that passes the staleness check is that of the connection that registered last |
| `SignalingRuns.DestroysNewerIff` | crates/seameet-signaling/src/engine.rs:1117-1130 | over every run: the cleanup of c takes the registration or a membership of a session of p that registered since c's check exactly if p's generation is no longer c's or p is a member somewhere under such a session's channel |
| `SignalingRuns.DestructionNeedsRegistration` | crates/seameet-signaling/src/engine.rs:1117-1130 | so it takes a registration as p by another connection between the check and the cleanup |
| `SignalingRuns.LatestSinceCheck` | crates/seameet-signaling/src/engine.rs:1117-1130 | while c has not cleaned up, the latest registration as p is c's or one made since c's check, and all made since are other connections' |
| `SignalingRuns.CleanUpAfterNewerJoin` | crates/seameet-signaling/src/engine.rs:1117-1130 | a newer connection that joins in between becomes a member unless the room is full, and then loses all memberships although it stays active |
| `SignalingRuns.NewerMemberRemoved` | crates/seameet-signaling/src/engine.rs:1117-1130 | for every limit of at least one, a run in which the newer connection is a member and the older one's cleanup removes it from every room |
| `SignalingWitnesses.UnregisteredMemberRemoved` | crates/seameet-signaling/src/engine.rs:1117-1130 | for every limit of at least two, a run of three connections in which a newer session is a member but no longer has a generation, and the older one's cleanup removes it |

## Left out

- Real cryptography, key exchange, safety numbers: only the function values above.
- The worker's tables for all participants: the tables keyed by `participant:keyId` are modelled for one participant; participants do not interact.
- The lock itself: each method is what runs while the participant's lock is held. A key message that replaces the entry list between a handler's start and its turn on the lock is not modelled.
- E2eeReceiver.AuthenticDelivery: runs do not contain removeKeys, which forgets replay windows and so permits repetition by design.
- E2eeCompleteness.CompleteDelivery: runs do not contain removeKeys either, after which a key starts with an empty rule.
- E2eeSenderKeys.LogFollowsEvents: sending runs do not contain removeKeys, which starts the participant afresh.
- E2eeWorker.Participant.EncryptFrame: does not model a failing WebCrypto encrypt call, which drops the frame after counter and chain advanced.
- The not-ready notifications to the user interface.
- str0m, SDP parsing and acceptance, ICE, DTLS, sockets: an offer or a media event is its list of mids. A write whose outgoing stream does not exist still consumes its number, as in the code; what str0m sends is not modelled.
- Payload types, keyframe requests, bandwidth messages, active-speaker averaging, timers and own muting in the media task.
- MediaStreams.StreamsNeverMix: not stated across departures and screen stops, after which mids go to others by design.
- MediaTask.MediaTask.RenegotiationOffer: the order in which the buffer's hash map yields its sources is a parameter.
- Backpressure.AlwaysAccounted: assumes cap + tasks fits the 64-bit counter; a stopped peer's counter is only bounded below by what is outstanding.
- The RTP sender's picture-loss flag. A silence packet is an audio call with an empty payload.
- Rtcp.ToBytes: the length field wraps as in an optimised build; a checked build would abort instead.
- InboundPipeline.InboundPipeline.Drain: the decoder is a function of the payload, without state of its own; logging is omitted.
- RtpPath.ReadsWhatWasSent: arrivals out of reach, where the code assigns a wrong index, are excluded as `UnwrapExactIff` says.
- Chat history, media-state flags, display names, authentication, rate limits and message relaying in the signaling engine.
- Signaling.SignalingState.Prune: the loop over the stale members is one map subtraction.
- `crates/seameet/src/room.rs`, codecs, processors, the server builder and the user interface: simpler copies or plumbing.
