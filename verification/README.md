# Verification of openfortivpn and its connection manager

A Dafny model of the parts of the repository whose correctness does not show in any single
function, with proofs over every input and every run:

- **HDLC framing** (`Fcs`, `Hdlc`, `HdlcEncoder`, `HdlcDecoder`, `PtyReader`, `HdlcStream`):
  the table-driven check sequence against the bit-by-bit CRC, byte stuffing, the encoder with
  its shared flag, the frame scanner, the decoder and the reassembly loop of `pppd_read`, up to
  the end-to-end theorem for arbitrary cuts of the stream (RFC 1662, sections 3 and 4 and
  appendix C).
- **The offline bundle transaction** (`Bundle`): installation, rollback, recovery and garbage
  collection as atomic file steps, each of which may be the last one before a crash.
- **The connection manager** (`Admission`, `Manager`, `ManagerSafety`): admission, stops,
  deletion, eviction, shutdown, `supervise` and `run_once` as steps of a state machine, with
  crashes and restarts.
- **The native network handshake** (`NativeHandshake`, `NativePlan`, `NativeEngine`, `Workers`):
  the reader of engine events, the privileged worker and its driver, the end of an attempt, the
  plans the engine makes of a tunnel against the checks of the manager's admission, and the count
  of workers in flight.
- **The private control channel** (`Base64`, `ControlFrame`, `Challenges`): the manager's frames
  against the engine's parser, the release exchange, and the table of authentication challenges.
- **Profile storage** (`Journal`, `EngineConfig`): the redo journal over two files, and the
  engine configuration printed by the manager and read by `load_config`.
- **The PPP engine** (`Ppp`, `PppRuns`): replies to LCP and IPCP packets and runs of them
  (RFC 1661 section 5, RFC 1332 section 3.3).
- **Command mailboxes** (`Actors`) and **the edit of resolv.conf** (`ResolvConf`).

`Wrappers` and `CStrings` hold what several components use. Code that updates fields, buffers or
loop variables is modelled by classes and methods that are proved to compute a function of the
old state; the theorems are about those functions. Code whose point is the interleaving of tasks
(the manager, the handshake, the workers, the mailboxes) is modelled by steps on values, because
a property of all interleavings is a property of sequences of steps.

## What the proofs showed about the code

- `hdlc_encode` checks its buffer before the check sequence is written and not against the two
  escapes that the sequence may need. `Framer.Encode` says exactly for which buffer sizes it
  then writes past the end; with the buffer its caller allocates this never happens
  (`EncodeForCaller`), and the bound of 9 + 2n bytes is reached for exactly the sizes n >= 2
  (`BoundAttained`). An empty packet is encoded but refused by the decoder (`RoundTrip`).
- `commit_profiles` writes a journal that `recover_transaction` may later refuse (an orphan
  secret, an invalid password, more text than the read limit): such a journal blocks every later
  reader and writer. `Storage.CommitProfiles` says exactly when; `CommitThenRun` and
  `OrphanIsCommitted` show such a commit and that nobody is given an answer after it.
- The engine emits native plans that the manager refuses: with the same split route twice, with a
  route through another gateway than the tunnel, and with a search suffix that has an empty or
  overlong label or one that begins or ends with a hyphen. And the manager refuses every plan of a
  profile whose identifier has a character other than a letter, a digit, a hyphen or an
  underscore, which its own catalog accepts. `AdmittedForProfileExactly` has the exact condition,
  and there is a lemma with an input for each.
- A bundle manifest is written at any length and read back up to 8192 bytes. With one that is
  longer, an installation leaves a previous manifest that nothing can read, and a crash in the
  middle of it blocks recovery for good with a mixture on disk (`Install`, `CrashWithLongManifest`,
  `RunBlocked`). This cannot happen exactly if names, paths and modes of the targets are short
  enough (`AlwaysShortExactly`).
- A Length field below four in an LCP or IPCP packet makes the bound of the option loops wrap
  around. `OverrunExactly` says on which packets an access then leaves the data; the others are
  answered, or taken over, as if they were sound (`ShortNaks`, `ShortRequest`).
- An engine built without pppd gives up on a printed configuration at `pppd-use-peerdns`, so the
  line after it has no effect; a value that begins or ends with a vertical tab passes the
  manager's validation and is trimmed by the engine (`LoadInvertsPrint`, `ReceivedExactly`).
- A challenge can be answered twice after a cancellation, through one profile, of an attempt whose
  challenge is pending for another: `GuardedExactly` shows that single use holds exactly without
  such cancellations, and `TwoProfilesTwoResponses` gives a run with one. The manager's own calls
  contain none (`SingleUse`), because an attempt is a fresh UUID of one profile
  (headless/src/manager.rs:707 and 935) and is cancelled through it.
- The first IPCP Configure-Request is written with shifts from values that were read with
  memcpy. On a little-endian machine it asks for the context's addresses exactly when they read
  the same backwards, so a Configure-Nak that comes before the LCP acknowledgement makes the
  engine ask for another address (`FirstMatchesExactly`, `EarlyNakMismatch`).
- Deleting the name servers does not undo adding them for an empty search suffix or one with a
  semicolon, unless the line was already there, and for a suffix that ends in a carriage return
  it can delete an original line (`DeleteUndoesAddExactly` has the exact condition).

## Assumptions

SHA-256 is injective. `EVP_EncodeBlock` and `EVP_DecodeBlock` are base 64 with pads read as zero
bits. Memory allocation succeeds. Incoming PPP packets are at most 65535 bytes long, because their
caller keeps the length in 16 bits (src/io_win.c:151-193). Engine events arrive on one stream,
between the spawn of the engine and the draining of its output. Commands of one profile run one
after the other, which is what `Actors` proves of the dispatcher. `isspace` is that of the C
locale. Values of the operating system (times, cuts of reads, which file step fails and how, what
the driver leaves behind) are chosen by the environment at each step.

## Model

| member | source | states |
|---|---|---|
| Fcs.FrameChecksum16Bit | src/hdlc.c:79-85 | the table-driven loop computes the bit-by-bit CRC with polynomial 0x8408 for any bytes and any start value |
| Fcs.TableEntry | src/hdlc.c:36-69 | every entry of the table is eight bit steps of its index |
| Fcs.CrcAppend | src/hdlc.c:79-85 | the sum of a concatenation continues the sum of its front |
| Fcs.CrcInjective | src/hdlc.c:79-85 | for fixed bytes the sum is injective in the start value |
| Fcs.PairInjective | src/hdlc.c:79-85 | two steps are injective in the pair of bytes |
| Fcs.AddressControlConstant | src/hdlc.c:87-92 | the precalculated constant is the sum of the Address and Control fields |
| Fcs.GoodExactlyWithItsField | src/hdlc.c:284-292 | content ends in 0xf0b8 exactly when its last two bytes are the complemented sum of the rest, low byte first |
| Fcs.WindowChangeIsSeen | src/hdlc.c:284-292 | within a window of two adjacent bytes of good content, the sum is good again exactly if nothing changed |
| Hdlc.FrameBodyTransparent | src/hdlc.c:139-182 | apart from flags a frame has no flag, no byte below 0x20, and the escape only before an escaped byte |
| HdlcEncoder.Framer.Encode | src/hdlc.c:123-186 | writes exactly the frame and leaves the rest of the buffer, with the exact sizes for which it refuses or overruns |
| HdlcEncoder.EncodeForCaller | src/hdlc.h:42 | with 9 + 2n bytes it neither refuses nor overruns and gives the frame |
| HdlcEncoder.EncodedLength | src/hdlc.h:42 | every frame fits in 9 + 2n bytes |
| HdlcEncoder.BoundAttained | src/hdlc.h:42 | some packet of n bytes reaches 9 + 2n exactly when n >= 2 |
| HdlcDecoder.Decode | src/hdlc.c:241-295 | the loop over the frame stores what unstuffing and the check give, or reports their error |
| HdlcDecoder.RoundTrip | src/hdlc.c:241-295 | decoding a frame body gives the packet back, unless it is empty |
| HdlcDecoder.AcceptedExactly | src/hdlc.c:250-294 | a frame is accepted with a packet exactly when its unstuffed content is that packet followed by its check sequence |
| HdlcDecoder.CorruptionIsReported | src/hdlc.c:284-292 | a frame whose covered content differs from that of an accepted one within two adjacent bytes is reported as a bad checksum, if both frames have the Address and Control header or neither has |
| HdlcDecoder.FindFrameIn | src/hdlc.c:197-227 | the scanning loops find what the reference definition finds |
| HdlcDecoder.FindFrameIsFirst | src/hdlc.c:197-227 | what is found is delimited by flags, holds none, and is the first such run |
| PtyReader.PppdRead | src/io.c:189-272 | the reading loop over its 4096-byte buffer computes the run of reads for any cuts |
| PtyReader.TakeFrames | src/io.c:217-266 | the inner loop queues every whole frame and stops behind the last one or at a bad one |
| PtyReader.MoveToFront | src/io.c:268-271 | the remainder is moved to the front unchanged |
| HdlcStream.EncodeAll | src/hdlc.c:106-186 | one framer's output for a sequence of packets is their stream with shared flags |
| HdlcStream.StreamIsBodies | src/hdlc.c:134-137 | after the first flag the stream is the bodies, each with its closing flag only |
| HdlcStream.NeverWrong | src/io.c:189-272 | for any cuts, what is queued is a prefix of what was sent and decoding never fails |
| HdlcStream.Delivered | src/io.c:189-272 | once all is read, exactly the packets before the first that does not fit have been delivered, in order |
| HdlcStream.AllDeliveredExactlyWhenAllFit | src/io.c:189-272 | all packets are delivered exactly when each frame with both flags fits in 4096 bytes |
| Bundle.Store.Restore | crates/manager-core/src/bundle.rs:158-185 | validates before the first write; what it does leaves every target on one of the two sides of the manifest |
| Bundle.Store.Recover | crates/manager-core/src/bundle.rs:192-200 | keeps what is in force and removes the marker when it completes; a marker that cannot be loaded, one above 8192 bytes included, blocks it and nothing changes; a transaction of sound history does not |
| Bundle.Store.Install | crates/manager-core/src/bundle.rs:201-254 | leaves the old bundle or the whole new one in force at every failure if its manifest can be read back; undisturbed it succeeds exactly for admissible payloads with such a manifest, and with a longer one leaves the new targets and an unreadable previous manifest |
| Bundle.Store.Rollback | crates/manager-core/src/bundle.rs:255-263 | puts the previous bundle back as a whole or keeps the present one; after sound history succeeds once, exactly when there is a previous bundle; with a previous manifest that cannot be read back it is refused and nothing changes |
| Bundle.Store.Gc | crates/manager-core/src/bundle.rs:264-287 | removes exactly the blobs that no manifest names |
| Bundle.Run | crates/manager-core/src/bundle.rs:158-287 | for targets whose manifests can always be read back, over any commands cut short anywhere, the bundle in force is one of the known ones, and with no marker the targets are that bundle |
| Bundle.AlwaysShortExactly | crates/manager-core/src/bundle.rs:104-116 | manifests can be read back whatever the files are exactly if the greatest length of a manifest of these targets is at most 8192 |
| Bundle.CrashWithLongManifest | crates/manager-core/src/bundle.rs:201-240 | with a longer one, an installation that dies after its first target leaves one new target among old ones under a marker that cannot be loaded |
| Bundle.RunBlocked | crates/manager-core/src/bundle.rs:192-200 | and from then on every command is refused and nothing changes, whatever the environment does |
| Bundle.ConsistentIsRestorable | crates/manager-core/src/bundle.rs:141-185 | every blob a recovery or rollback needs is there with its digest |
| Bundle.CoversAll | crates/manager-core/src/bundle.rs:104-136 | a manifest that loads names every target once |
| Bundle.DescriptionMeans | crates/manager-core/src/bundle.rs:204-240 | the manifest an installation writes has the present targets as before side and the payloads as after side |
| Admission.ReservedExactlyWithoutOwners | crates/manager-core/src/connection_service.rs:45-127 | a connection is reserved exactly when every gate is open and nobody owns the network |
| Admission.ReusedExactlyWhenHealthy | crates/manager-core/src/connection_service.rs:45-127 | a connection is reused exactly when its own healthy published owner is the only one and the user asks |
| Manager.NextKeeps | headless/src/manager.rs:628-1284 | every step of every task, crashes and restarts included, keeps the invariant of the manager |
| Manager.ConnectKeeps | headless/src/manager.rs:628-736 | so does a connect, which reserves only where nobody is an owner |
| Manager.RunKeeps | headless/src/manager.rs:983-1225 | so does each step of an attempt up to the reaping of its child |
| Manager.FinalKeeps | headless/src/manager.rs:882-981 | so does each step of the decision to retry, disconnect or fail |
| Manager.EventKeeps | headless/src/manager.rs:1360-1500 | so does an engine event, whatever it reports |
| Manager.RestartKeeps | headless/src/manager.rs:199-245 | so does a restart, which makes a recovery owner of every record |
| ManagerSafety.OneOwnerEver | headless/src/manager.rs:628-736 | in every reachable state at most one profile not restored from the journal is an owner, the only supervisor is its own, and a failed cleanup keeps its control active |
| ManagerSafety.NeverDropped | headless/src/manager.rs:549-596 | nothing but the end of the process drops an owner or forgets a failed cleanup |
| ManagerSafety.RecoveryRefusesAll | crates/manager-core/src/connection_service.rs:45-127 | while a restored owner stands no start of any profile is admitted |
| ManagerSafety.StandingRun | headless/src/manager.rs:199-245 | and from then on no engine is started and every record stays |
| ManagerSafety.DoubtJournaledEver | headless/src/manager.rs:983-1284 | at every point, a child that may be alive and an attempt not known to be clean have their record on disk, and hold the lease |
| ManagerSafety.CrashBlocksConnects | headless/src/manager.rs:199-245 | after a crash at any point and a restart, such an attempt blocks every connect for every profile |
| NativeHandshake.NextKeeps | headless/src/manager.rs:1545-1834 | every step of the reader, the worker, the driver and the end of the attempt keeps the invariant of the handshake |
| NativeHandshake.GuardKeeps | headless/src/manager.rs:1726-1790 | so does the section that binds a native event to its attempt, whatever the event |
| NativeHandshake.ConnectedOnlyWhenReady | headless/src/manager.rs:1437-1463 | the instance becomes Connected only after a successful apply of the driver and a successful acknowledgement of the same request, with nothing released |
| NativeHandshake.ConnectedIsReachable | headless/src/manager.rs:1437-1463 | and there is a run of the handshake in which it does |
| NativeHandshake.LeaseAndRecordOutliveTheDriver | headless/src/manager.rs:1226-1253 | the lease and the run record stay while the driver may hold anything, a call of it is under way, or a begun plan is unreleased |
| NativeEngine.NetworkApply | src/manager_control.c:334-484 | emits the frames of the plan of a tunnel exactly if all checks pass, and otherwise nothing |
| NativeEngine.BuildRoutes | src/manager_control.c:374-403 | the loop over the split routes makes all resources, or fails exactly if some route has a mask that is not a prefix, host bits, or covers the gateway or the transport |
| NativeEngine.SplitSuffix | src/manager_control.c:405-439 | the loop over the search suffix gives its parts in lower case, or fails exactly if there are more than 32 or some part is empty, too long or has another character |
| NativeEngine.EmitPlan | src/manager_control.c:472-484 | the emitting loop prints the frames of a plan, numbered in order |
| NativePlan.AdmittedExactly | crates/manager-core/src/network_control.rs:50-164 | the admission completes on exactly the frame sequences of one request that begin, number and commit at most 128 resources, with a sound binding, resources that are distinct, valid and allowed, and an attempt and profile whose identities are fit for a plan |
| NativePlan.HandshakeObserves | crates/manager-core/src/network_control.rs:50-164 | the handshake's admission, which knows the checks of contents as one flag, takes the same steps |
| NativeEngine.DomainAdmitted | crates/manager-core/src/network.rs:161-180 | a part of the suffix that passes the engine's character test is a domain for the manager exactly when its labels are |
| NativeEngine.PlanAdmitted | crates/manager-core/src/network.rs:124-190 | owner, binding and resources of an accepted tunnel pass the manager's checks exactly if attempt and profile have fit identities and the tunnel has no two routes to one network, no foreign gateway, good labels, and an index of 31 bits |
| NativeEngine.EmittedIsAdmittedExactly | crates/manager-core/src/network.rs:124-190 | of the tunnels that pass the engine's checks, exactly those have their frames admitted and committed, provided that attempt and profile have fit identities, and none otherwise |
| NativeEngine.AttemptIsFit | crates/manager-core/src/network.rs:125-134 | the identity of an attempt always is |
| NativeEngine.AdmittedForProfileExactly | crates/manager-core/src/network.rs:124-190 | for a profile that is valid in the catalog, they are admitted and committed exactly if the tunnel is one of those and the profile's identifier has only letters, digits, hyphens and underscores |
| NativeEngine.ProfileIdRefused | crates/manager-core/src/validation.rs:57-81 | the identifiers my.vpn and my vpn are valid in the catalog, and every plan of such a profile is refused |
| NativeEngine.DuplicateRouteRefused | crates/manager-core/src/network.rs:141-145 | a tunnel with the same route twice passes the engine's checks and its plan is refused |
| NativeEngine.ForeignGatewayRefused | crates/manager-core/src/network_control.rs:127-134 | so does one with a route through another gateway |
| NativeEngine.BadLabelRefused | crates/manager-core/src/network.rs:161-180 | so do the search suffixes a..b and -x |
| Workers.ReturnsOnlyIdle | headless/src/native_network.rs:38-48 | wait returns only when no worker is in flight, in every interleaving |
| Workers.NoLostWakeUp | headless/src/native_network.rs:14-48 | a wait that sleeps unnotified sleeps while a worker is in flight or about to notify |
| Base64.DecodeEncode | src/manager_control.c:144-150 | block decoding of encoded data gives the data, then a zero for every pad, and nothing else |
| Base64.EncodeAlphabet | src/manager_control.c:135-142 | encoded text has symbols only, pads in its last two places only, as many as octets are missing |
| Base64.GroupIsOneNumber | crates/manager-core/src/control.rs:70-72 | a group is the same 24-bit number in base 64 and in base 256 |
| ControlFrame.ManagerControlDecode | src/manager_control.c:112-167 | the loops over the line fill the buffer with the decoded value and a terminator, or leave an empty string |
| ControlFrame.DecodeExactly | src/manager_control.c:112-167 | a line is accepted with a value exactly when it is the frame text of that value for this attempt, request and action, and the value is not empty, fits, and is free of NUL, CR and LF |
| ControlFrame.DecodeInvertsFrame | crates/manager-core/src/control.rs:40-75 | the engine recovers exactly what the manager framed, if its buffer holds it |
| ControlFrame.DecodeInjective | src/manager_control.c:112-167 | no two lines give the same value |
| ControlFrame.OneRequest | src/manager_control.c:126-129 | no line is accepted for two requests |
| ControlFrame.NetworkRelease | src/manager_control.c:502-547 | without a started plan a release succeeds at once and without a request it fails; otherwise it succeeds exactly when the first frame grants it, or the first is the one late answer to the apply and the second grants it, and only then the plan no longer counts as started |
| Challenges.Challenges.Register | crates/manager-core/src/control.rs:110-156 | expires, checks and stores a challenge as the specification of the table says |
| Challenges.Challenges.Respond | crates/manager-core/src/control.rs:161-189 | gives the frame of an accepted response and removes its challenge |
| Challenges.Challenges.Close | crates/manager-core/src/control.rs:190-198 | removes exactly the closed challenge |
| Challenges.Challenges.CancelAttempt | crates/manager-core/src/control.rs:199-208 | forgets the attempt and its pending challenge of this profile |
| Challenges.RunBounded | crates/manager-core/src/control.rs:110-156 | at most 512 challenges, 512 attempts and 32 requests each, in every run |
| Challenges.AcceptedIsBound | crates/manager-core/src/control.rs:161-189 | an accepted response answers a challenge registered for the same profile, generation, attempt and request, not withdrawn since, strictly before its deadline |
| Challenges.GuardedUse | crates/manager-core/src/control.rs:109-213 | in a run without a cancellation through one profile of an attempt pending for another, between two accepted responses to one request its attempt was cancelled |
| Challenges.GuardedExactly | crates/manager-core/src/control.rs:109-213 | a run has no such cancellation if and only if from each of its points, however it goes on without a cancellation, every request is used once |
| Challenges.StrandedUse | crates/manager-core/src/control.rs:199-208 | the first such cancellation of a run can be followed by two accepted responses to one request without another one and without the clock going back |
| Challenges.SingleUse | crates/manager-core/src/control.rs:109-213 | with each attempt used by one profile, between two accepted responses to one request its attempt was cancelled |
| Challenges.TwoProfilesTwoResponses | crates/manager-core/src/control.rs:199-208 | a run from the empty table with two responses and no cancellation between them |
| EngineConfig.VpnConfig.Load | src/config.c:187-490 | the loop over the lines leaves the configuration the specification gives |
| EngineConfig.TrimExactly | src/config.c:225-242 | a value survives the trimming exactly when it has no space at its ends |
| EngineConfig.ReadPrinted | headless/src/storage.rs:772-779 | a printed line assigns its trimmed value to its key |
| EngineConfig.LoadInvertsPrint | headless/src/storage.rs:688-720 | reading the printed file gives back every field of every valid profile, leaves empty fields at their prior value, and says what an engine without pppd misses |
| EngineConfig.ReceivedExactly | crates/manager-core/src/validation.rs:21-43 | a validated value arrives unchanged exactly when it has no vertical tab at its ends |
| Journal.Storage.RecoverTransaction | headless/src/storage.rs:437-469 | carries a pending transaction out as far as the environment lets it and never changes what is in force; an unsound one blocks |
| Journal.Storage.BackupLegacy | headless/src/storage.rs:470-497 | the backup of the old schema pairs the profiles and secrets of one commit |
| Journal.Storage.CommitProfiles | headless/src/storage.rs:498-513 | the journal is the commit point; exactly which commits complete, are refused, or block |
| Journal.Storage.PrepareLegacyRollback | headless/src/storage.rs:385-409 | the downgrade changes the schema and not what readers see |
| Journal.Run | headless/src/storage.rs:222-236 | every reader sees profiles and secrets of the last commit whose journal reached the disk, over any sequence of interrupted commits and recoveries; on a blocked disk nobody is given an answer and nothing changes |
| Journal.OrphanSecretBlocks | headless/src/storage.rs:437-469 | a secret without its profile passes the checks of a commit and fails those of a recovery |
| Journal.OrphanIsCommitted | headless/src/storage.rs:498-513 | such a commit |
| Journal.CommitThenRun | headless/src/storage.rs:222-236 | after a commit of this kind every later command is without an answer and its journal stays, whatever the environment does |
| Ppp.PppContext.HandleLcp | src/ppp.c:144-332 | the handler changes the context and replies as specified, for any Length, and stops where an access leaves the data |
| Ppp.PppContext.HandleIpcp | src/ppp.c:337-533 | the handler changes the context and replies as specified, for any Length, and stops where an access leaves the data |
| Ppp.PppContext.ProcessIncoming | src/ppp.c:535-593 | dispatches on the protocol, extracts IP packets and rejects unknown protocols |
| Ppp.PppContext.CollectRejects | src/ppp.c:170-204 | the loop collects exactly the unwanted options, in order, up to the first malformed one, or leaves the data |
| PppRuns.WalkFlatten | src/ppp.c:170-204 | walking over printed options gives them back |
| PppRuns.RequestAnswered | src/ppp.c:165-223 | a request is acknowledged unchanged exactly when it has no unwanted option, otherwise exactly those are rejected, with its identifier and a true length |
| PppRuns.ScanWrapped | src/ppp.c:159-180 | a loop whose bound has wrapped around stays inside the data exactly when an option of length zero or one stops it |
| PppRuns.OverrunExactly | src/ppp.c:159-516 | an access leaves the data exactly on these packets, by their bytes: Length below four, and a copy of the wrapped length or a loop that no option stops |
| PppRuns.ShortNaks | src/ppp.c:399-453 | of two Configure-Naks with a Length of zero one leaves the data and the other is answered |
| PppRuns.ShortRequest | src/ppp.c:165-214 | a Configure-Request with a Length of zero that is answered with an ordinary Configure-Reject |
| PppRuns.NeverBackwards | src/ppp.c:535-593 | the phase never moves backwards and a terminated link stays terminated, in every run |
| PppRuns.NegotiatesOnce | src/ppp.c:390-397 | the end of the negotiation is reported at most once |
| PppRuns.CompleteExactly | src/ppp.c:390-397 | the flag is set exactly when it was reported |
| PppRuns.FirstMatchesExactly | src/ppp.c:225-267 | the request sent on the LCP acknowledgement has the context's addresses exactly on a big-endian machine or for palindromic addresses |
| PppRuns.LastMatchesExactly | src/ppp.c:225-533 | in every run, from any context, the last IPCP request has exactly the context's addresses if and only if it was not the one sent on the LCP acknowledgement, or the machine is big-endian, or all addresses read the same backwards |
| PppRuns.LastRequestMatches | src/ppp.c:225-533 | with no IPCP Nak, however short, before the LCP acknowledgement, the last IPCP request has exactly the context's addresses, in every run |
| PppRuns.Session | src/ppp.c:87-131 | initialisation, the opening request and the packets that come in give the replies and the context of the run from the opened context |
| PppRuns.SessionIsSound | src/ppp.c:87-593 | in such a session without an early Nak the last request matches, and the link is complete exactly if that was reported, once at most |
| PppRuns.NakIsFollowed | src/ppp.c:399-453 | a Configure-Nak with all three addresses is taken over and the next request asks for exactly its options |
| PppRuns.RejectIsFollowed | src/ppp.c:455-516 | after a Configure-Reject the next request asks for exactly the addresses whose type was not rejected |
| PppRuns.EarlyNakMismatch | src/ppp.c:225-267 | with one there is a request that has not |
| Actors.NextKeeps | crates/manager-core/src/actor.rs:31-87 | every step of callers and workers keeps the invariant of the mailboxes |
| Actors.OneCommandPerProfile | crates/manager-core/src/actor.rs:36-64 | one working mailbox per profile, so one executing command and no replacement before the worker stopped, and a map within its capacity |
| Actors.StartedInOrder | crates/manager-core/src/actor.rs:54-60 | commands start in the order of their admission, none twice, with at most 16 waiting |
| Actors.RefusedNeverRan | crates/manager-core/src/actor.rs:65-87 | a command refused by the dispatcher never ran; one that was answered ran once, in its mailbox |
| ResolvConf.Resolver.LinePresent | src/dns_policy.h:21-41 | the pointer loop decides the presence of the line |
| ResolvConf.PresentExactly | src/dns_policy.h:21-41 | a line is present exactly when a non-blank line is it, but for a carriage return |
| ResolvConf.Resolver.Add | src/ipv4.c:1126-1269 | the flags and the new contents, for any file that is not empty |
| ResolvConf.Resolver.Delete | src/ipv4.c:1369-1419 | the lines that are kept, for any file that is not empty |
| ResolvConf.DeleteUndoesAddExactly | src/ipv4.c:1207-1419 | deleting after adding leaves exactly the original non-blank lines under exactly this condition |

## Left out

- Sockets, TLS, process spawning, signals, `/proc`, systemd and the driver's own work appear only as steps that succeed or fail.
- File modes, owners, symbolic links and the wiping of secrets are not part of the transactions that are modelled.
- The binding of a bundle manifest to paths and modes is not modelled: a manifest is a list of names with two digests. Its text counts by its length alone, with the number of bytes that name, path and mode of a target take given.
- The manager, the handshake, the workers and the mailboxes are modelled on values, step by step; their locks appear as the atomicity of a step, and aliasing of shared fields is not captured.
- The run loop's retry delays, log lines, revisions and messages of instances are left out; the order of delays is not a safety property.
- The JSON text of plan frames and the text of addresses are not modelled: addresses are numbers. In `NativeHandshake` the checks of contents are one flag of an event (`HandshakeObserves` ties it to the checks), and `manager_control_network_gate` is left out: it only compares two words.
- NativeHandshake.ConnectedOnlyWhenReady: covers managers with a native driver; without one `tunnel_up` needs no handshake.
- The time limits of `read_frame` are the end of the frames that `NetworkRelease` is given.
- Journal.Storage.Read: a reader of the source also fails when profiles.json or secrets.json cannot be decoded or holds an invalid or repeated profile; the documents the model starts from are readable.
- The text of JSON documents is not modelled: `Journal` works on the documents, with the lengths of their text as given numbers, and without the normalisation of certificate pins on loading.
- EngineConfig.LoadInvertsPrint: starts from a host without white space around it, because the manager trims the host by Unicode rules before printing.
- Values that are not valid UTF-8 are allowed in `ControlFrame` although the manager's strings cannot hold them.
- EngineConfig.VpnConfig.Load: the fields of keys that the manager never prints are left out; such keys set nothing here, except that a bad `saml-login` or an unknown key ends the reading.
- PppRuns.NeverBackwards: says nothing about the program after a packet on which `LeavesData` holds; the model then ignores the packet.
- PppRuns.NegotiatesOnce: says nothing about the program after a packet on which `LeavesData` holds; the model then ignores the packet.
- PppRuns.CompleteExactly: says nothing about the program after a packet on which `LeavesData` holds; the model then ignores the packet.
- PppRuns.LastMatchesExactly: says nothing about the program after a packet on which `LeavesData` holds; the model then ignores the packet.
- PppRuns.LastRequestMatches: says nothing about the program after a packet on which `LeavesData` holds; the model then ignores the packet.
- PppRuns.SessionIsSound: says nothing about the program after a packet on which `LeavesData` holds; the model then ignores the packet.
- `ppp_encapsulate_ip` is left out: it puts the two protocol bytes of IPv4 before a copy of the packet. The engine has no timers: it never sends an echo request and never repeats a request of its own, so neither is modelled.
- ResolvConf.Resolver.Add: models the direct edit; the call of resolvconf and failures of writing the file are not modelled.
- HTTP routing, the web client, the desktop shell, settings, logging, route installation and the scanning of XML and HTTP responses are plumbing with weaker claims.
