# Verification of the TLS stack's state and wire logic

This project models, in Dafny, the parts of the TLS stack that decide outcomes once the
cryptographic primitives are given: the wire codecs, Encrypted Client Hello compression, the
TLS 1.3 handshake between two parties, record protection, the QUIC handoff, session ticket
keys, the Write/Close interlock and the session cache.  `dafny verify dfyconfig.toml` checks
all of it.

Hashes, HKDF, HMAC, block and stream ciphers, AEADs, ECDH, ML-KEM, signatures and X.509 parsing
are parameters: functions inside a datatype, constrained only by laws stated as predicates
(`Open` undoes `Seal`, decryption undoes encryption, Diffie-Hellman commutes, and so on).
Randomness, clocks and the network are parameters or nondeterministic actions.

How the modules fit together:

- `Wire`: integers, length prefixes, the sticky-error builder, readers, lists of items.
- `ClientHello`, `ClientHelloRoundTrip`, `PskBinders`: the ClientHello codec and its binders.
  Extension fields are kept by slot, a slot being the place where the printer emits the field.
- `Ech`, `EchDecoder`, `EchInversion`, `EchReferences`, `EchOrder`, `EchAccepted`: compression of
  the inner hello, the decoder as specified and as written, exact inversion, what any accepted
  encoding may copy, and in which order, and what it looks like.
- `KeyExchange`, `KeySchedule`, `Groups`: shared secrets, the secret chain, group negotiation.
- `Handshake13` gives the two parties' phases as steps of a system with two channels;
  `HandshakeInvariant`, `HandshakeOpening`, `HandshakeFlights` and `HandshakeServer` prove what
  every step keeps; `HandshakeCodec` puts the real message codecs in place; `HandshakeAgreement`
  draws the conclusions for two honest parties, `HandshakeCompletion` shows that compatible ones
  complete, `HandshakeAuthenticity` has the conclusions for one party and an arbitrary peer; `HandshakeObjects` holds the client and server objects whose methods rewrite
  their fields phase by phase.
- `Padding`, `Nonce`, `Record`, `RecordRoundTrip`, `RecordBinding`, `RecordNonces`, `HalfConn`,
  `Fragment`: the record layer.
- `Reader`: the bounded-retry record reader and the handshake buffer, with and without QUIC.
- `QuicHandoff`, `QuicEvents`, `TicketKeys`, `Interlock`: the concurrent parts, as step systems
  whose runs interleave any number of actions.
- `LruCache`, `CertificateMsg`, `CertificateList`, `ServerHelloMsg`, `SessionState`.

Where the code differs from what its comments or callers suggest, the code is followed:

- ech.go:265-270 says extensions are put back in outer order.  The cursor starts over in every
  `ech_outer_extensions` block, so an encoding with two blocks can reorder them
  (`EchOrder.TwoBlocksCanReorder`); `OrderAcrossBlocks` says exactly when it does not.
- quic.go:513-514 says exported methods wait for the handshake to become blocked.  A method that
  returns because `blockedc` was closed can do so before the goroutine closes `signalc`
  (`QuicHandoff.WindowBeforeExit`); `ParkedOrExitedIff` says exactly when.
- quic.go:262 says Close stops any handshake.  A client that waits for its resumption event to
  be drained drops the error of that wait (handshake_client.go:465) and goes on to its next one,
  where it and Close wait for each other (`QuicHandoff.CloseCanHang`, `DrainingIsReached`).
  `BlockedIffHung` shows that nothing else blocks a caller for good.
- conn.go:1313-1317 counts consecutive records without progress.  Under QUIC no record is read and
  nothing resets the count, so a connection takes at most sixteen post-handshake messages in all
  (`Reader.HandleDataAfterExit`).
- quic.go:232-236 means to overwrite the data of the event delivered last.  The slot has already
  been blanked, so it never does (`QuicEvents.NothingToOverwrite`).
- handshake_messages.go:1438-1440 refuses a Certificate whose last certificate is empty although
  the printer writes it (`CertificateMsg.CertificateRoundTrip`).
- common.go:1099-1134 reads the clock several times while rotating.  Ages are bounded at the
  reading that decided; at the moment of return a key can be eight days old exactly if making the
  list took longer than a day (`TicketKeys.AgesAtReturn`, `LateReturn`).
- conn.go:933-944 lets the k-th sized record hold k times what fits one segment.  The overhead is
  thus taken off every segment, though it is there once, and from the second record on a larger
  payload would still fit k segments (`Fragment.LargestForOneSegment`).
- ech.go:374-389 skips GREASE versions before refusing old ones; every GREASE value is above
  TLS 1.3, so it makes no difference (`EchAccepted.AcceptedMeans`).
- A ServerHello with both a key share and a selected group prints two `key_share` extensions and
  is refused on parsing (`ServerHelloMsg.ServerHelloRoundTrip`).

## Model

| member | source | states |
|---|---|---|
| Wire.ReadItems | handshake_messages.go:443-447 | the loop that consumes a vector until it is empty returns the list that the recursive reading of the bytes defines, refusals included |
| ClientHello.ApplyLoop | handshake_messages.go:461-679 | the one-pass extension loop with its set of numbers seen gives what splitting, refusing repeats and applying in turn give; `pre_shared_key` must come last |
| ClientHello.UnmarshalMsg | handshake_messages.go:420-682 | the parser as written computes `Unmarshal`, refusals included |
| ClientHelloRoundTrip.RoundTrip | handshake_messages.go:105-375 | for every printable ClientHello, parsing the printed bytes gives back the message with its sent fields, exactly if no variable part is one the parser refuses; every other printed hello is refused |
| ClientHelloRoundTrip.ParseFieldOf | handshake_messages.go:476-675 | each extension body parses back to the field it was printed from, exactly on the fields with non-empty parts (and no final dot in the server name) |
| ClientHelloRoundTrip.RowsDistinct | handshake_messages.go:105-342 | the printer never emits an extension number twice, in either mode |
| PskBinders.MarshalWithoutBinders | handshake_messages.go:384-400 | the loop over the binders cuts exactly the encoded binders off the message, and fails when the message is shorter |
| PskBinders.UpdateBinders | handshake_messages.go:406-418 | binders are replaced exactly if their number and lengths stay the same, for every hello |
| PskBinders.TruncatedIgnoresBinders | handshake_messages.go:384-418 | sender: replacing binders by others of equal lengths leaves the truncated message unchanged |
| PskBinders.BindersCoverSameBytes | handshake_client.go:1287-1295 | the bytes a client computes its binders over, with placeholders, are the bytes the server cuts out of the received message |
| PskBinders.CutsAtIdentities | handshake_messages.go:637-666 | receiver: for every accepted ClientHello with `pre_shared_key`, whoever sent it, the cut falls exactly at the end of the identities list |
| EchInversion.EncodedLength | ech.go:197-213 | the encoding is the printed hello without its header and at most 31 zeros, so many as fill 32-byte blocks together with the padding that would bring the server name to the maximum length (without a name, the maximum and nine); that padding itself is not added |
| EchInversion.ExtractRawOf | ech.go:236-260 | the raw extensions read from a printed hello are the ones printed, in order |
| EchInversion.ExpandInverts | ech.go:310-357 | expanding the compressed extension list against the outer hello gives the full list of the inner hello |
| EchInversion.InversionIsExact | ech.go:262-361 | for paired hellos, decoding the encoded inner against the outer's wire bytes rebuilds exactly the bytes of the plain inner marshal |
| EchInversion.DecodesInner | ech.go:363-396 | and decoding then yields that inner hello, exactly if it parses and offers TLS 1.3 and nothing older (GREASE aside) |
| EchDecoder.CopyOuter | ech.go:324-348 | the nested cursor loops over one block of references copy the extensions found from the cursor on, which rests on the last match, and fail where the definition fails |
| EchDecoder.ExpandExtensions | ech.go:310-356 | the extension loop with its growing builder produces the expanded extension bytes |
| EchDecoder.PaddingIsZero | ech.go:286-290 | the padding loop accepts exactly all-zero padding |
| EchDecoder.OnlyTls13 | ech.go:372-394 | the version loop accepts exactly the lists that offer TLS 1.3 and no older non-GREASE version |
| EchDecoder.DecodeInnerClientHello | ech.go:262-397 | the decoder as written computes `Decode` on every outer hello and every input |
| EchReferences.CopiesAreVerbatim | ech.go:310-357 | for any accepted encoding, whoever wrote it: every extension of the result is the encoding's own or a verbatim copy; within a block copies are in outer order, none is taken twice, and `encrypted_client_hello` is never copied |
| EchAccepted.SplitIffLaidOut | ech.go:271-290 | an encoding is taken apart exactly if its session ID is empty and everything after its extensions is zero |
| EchAccepted.AcceptedMeans | ech.go:262-397 | every accepted encoding, whoever wrote it: empty session ID and zero padding; its hello has the encoding's version, random, suites and compression methods and the outer hello's session ID, bears the inner mark, offers TLS 1.3 and no version below it |
| EchOrder.OrderAcrossBlocks | ech.go:324-343 | an accepted encoding, whoever wrote it, refers to an accepted outer hello in outer order exactly if all its references, moved into a single block, would still resolve |
| EchOrder.TwoBlocksCanReorder | ech.go:324-343 | a concrete outer hello that the parser accepts and a concrete encoding that the decoder accepts, whose two blocks put two outer extensions back in the other order |
| EchReferences.ResolvesIffSorted | ech.go:324-343 | a list of references resolves exactly if the positions it names are sorted and not before the cursor |
| KeyExchange.EcdhAgrees | key_schedule.go:282-316 | plain ECDH: both ends hold the same secret |
| KeyExchange.HybridAgrees | key_schedule.go:330-435 | hybrid: the halves are joined and split in the group's order with the group's sizes, so both ends hold the same joined secret |
| KeyExchange.SharedSecretsAgree | key_schedule.go:330-435 | whichever share of a generated key the server answers, with whatever keys, both ends derive the same secret; keys exist exactly for the supported groups |
| KeySchedule.LabelDetermines | key_schedule.go:29-46 | the HkdfLabel determines length, label and context: no two derivations share an HKDF input |
| KeySchedule.SecretsDiffer | key_schedule.go:49-59 | without HKDF collisions, two derived secrets are equal exactly if label and transcript digest are |
| KeySchedule.FinishedBinds | key_schedule.go:197-206 | without collisions, equal Finished messages mean equal base secrets and equal transcript digests, and the other way round |
| KeySchedule.HandshakeSecretBinds | key_schedule.go:78-109 | without collisions, two handshake secrets are equal exactly if the PSK (none being the same as zeros) and the shared secret are |
| KeySchedule.MasterDerivedBinds | key_schedule.go:78-163 | without collisions, two secrets derived from the master secret are equal exactly for the same label, transcript digest, PSK and shared secret |
| Handshake13.SecretsAllDiffer | key_schedule.go:117-163 | without HKDF collisions no two of the secrets that come from one parent are equal: client and server handshake secrets; client, server, exporter and (over a later transcript) resumption secrets |
| Handshake13.HandshakeKeysBind | key_schedule.go:103-127 | without collisions, the handshake traffic secrets of two connections are equal exactly if transcript digest, PSK and shared secret are |
| Handshake13.ApplicationKeysBind | key_schedule.go:129-163 | the same of application traffic, exporter and resumption secrets |
| Handshake13.BinderBinds | handshake_server_tls13.go:388-406 | without collisions, equal binders mean the same session secret and the same digest of what they cover |
| Handshake13.SignedMessageBinds | auth.go:92-119 | what is signed tells the role and the transcript digest, which stands after 98 fixed bytes |
| Groups.StableSortOrders | handshake_server_tls13.go:224-229 | a stable sort by a yes-no key orders by the key first and by the former position second |
| Groups.SelectsBest | handshake_server_tls13.go:208-230 | a group is chosen exactly if one is common, and it is the best by (post-quantum, share offered, preference order) |
| Groups.IllegalClientHelloChange | handshake_server_tls13.go:657-710 | the comparison loops decide exactly the listed differences |
| Groups.SecondHelloAccepted | handshake_server_tls13.go:628-647 | an honest client's second hello carries one share for the requested group, no early data and no illegal change |
| Groups.SettlesInOneRetry | handshake_client_tls13.go:290-333 | for any two configurations with a common group the server has a choice the client prefers too; a retry request for it passes the client's check exactly if it came without a share, and the client has a key exchange to answer with |
| Groups.PreferencesAre | common.go:1267-1283 | the preferences are the default groups that are configured (all, if nothing is), each once and in the default order |
| Groups.LegalIffSame | handshake_server_tls13.go:657-710 | a second hello is legal exactly if it equals the first in every slot but key_share, early_data, pre_shared_key, extended_master_secret, quic_transport_parameters and encrypted_client_hello; an empty renegotiation_info and the cipher suite that stands for it are the same |
| Groups.PreferencesSupported | common.go:1267-1283 | every enabled group has a key exchange |
| Handshake13.SettlesOnBest | handshake_server_tls13.go:197-257 | the server settles on the best common group; it asks for a retry exactly if the first hello has no share for that group; after either hello it holds a share for it |
| Handshake13.SuiteIsFirst | handshake_server_tls13.go:178-195 | the suite chosen is the first of the server's preferences that is offered and known, and none is chosen exactly if there is none |
| Handshake13.ShareIsFirst | handshake_server_tls13.go:232-238 | the share found is the client's first for the group; none is found exactly if none was sent |
| Handshake13.FirstIdentityDecides | handshake_server_tls13.go:317-433 | the first of the first five identities whose ticket opens with the right hash decides, by its binder alone: resumed if the binder is the MAC over the transcript and the truncated hello, a bad binder otherwise; without such an identity the handshake goes on afresh |
| HandshakeObjects.ServerHandshake.ProcessClientHello | handshake_server_tls13.go:106-257 | first hello: checks, suite, group and share, or a retry request; the object's fields end as the step says, and `HonestRunsComplete` shows that the step takes every hello of a compatible client |
| HandshakeObjects.ServerHandshake.DoHelloRetryRequest | handshake_server_tls13.go:521-571 | the transcript is replaced by the hash of the first hello and extended by the request |
| HandshakeObjects.ServerHandshake.ReadRetriedHello | handshake_server_tls13.go:577-652 | the second hello is accepted exactly under the listed checks |
| HandshakeObjects.ServerHandshake.CheckResumption | handshake_server_tls13.go:291-436 | the loop over identities with its binder check computes `CheckForResumption` |
| HandshakeObjects.ServerHandshake.SendServerParameters | handshake_server_tls13.go:712-815 | transcript, handshake secrets and traffic keys after ServerHello and EncryptedExtensions |
| HandshakeObjects.ServerHandshake.SendCertificates | handshake_server_tls13.go:821-887 | certificate request, certificate and signature over the transcript, or nothing when resuming |
| HandshakeObjects.ServerHandshake.SendFinishedMessage | handshake_server_tls13.go:889-935 | Finished, application secrets, and the early roll-forward when no client certificate is awaited |
| HandshakeObjects.ServerHandshake.SendSessionTickets | handshake_server_tls13.go:951-1012 | the client's Finished computed in advance, the resumption secret over it, and the ticket |
| HandshakeObjects.ServerHandshake.ReadFromClient | handshake_server_tls13.go:1026-1143 | client certificate, signature and Finished, each checked against the transcript before it |
| HandshakeObjects.ClientHandshake.ProcessHelloRetryRequest | handshake_client_tls13.go:233-408 | transcript and hello are rewritten, binders recomputed over the new transcript, early data dropped |
| HandshakeObjects.ClientHandshake.ProcessServerHello | handshake_client_tls13.go:410-519 | checks, key share, PSK and handshake keys |
| HandshakeObjects.ClientHandshake.ReadFromServer | handshake_client_tls13.go:521-731 | the encrypted flight, message by message, and the ticket after it |
| HandshakeObjects.ClientHandshake.SendClientCertificate | handshake_client_tls13.go:733-805 | nothing, an empty certificate, or a certificate with a signature over the transcript |
| HandshakeObjects.ClientHandshake.SendClientFinished | handshake_client_tls13.go:807-829 | Finished, the switch of write key and the resumption secret |
| HandshakeOpening.BinderAccepted | handshake_server_tls13.go:388-406 | the server never rejects the binder of an honest client, before or after a retry |
| HandshakeOpening.ClientRetries | handshake_client_tls13.go:233-408 | an honest retry request passes all the client's checks, and its answer all the server's |
| HandshakeFlights.ClientReadsHello | handshake_client_tls13.go:410-519 | an honest ServerHello is always accepted and leads to the server's handshake keys |
| HandshakeFlights.ClientReadsFlight | handshake_client_tls13.go:521-731 | every message of an honest server's flight opens under the client's read key and passes its check |
| HandshakeServer.ServerReadsFlight | handshake_server_tls13.go:1026-1143 | every message of an honest client's flight opens under the server's read key and passes its check |
| HandshakeAgreement.StepKeeps | handshake_client_tls13.go:45-159 | every step of either party keeps the two-party invariant |
| HandshakeAgreement.InvAgrees | handshake_server_tls13.go:951-968 | the invariant gives equal transcripts at each derivation point, equal secrets, and the precomputed client Finished |
| HandshakeAuthenticity.ClientKnowsServer | handshake_client_tls13.go:588-731 | any run of a client on an arbitrary sequence of packets: coming to its own flight implies an earlier Finished checked over its transcript, under secrets derived from the PSK if one is in use; otherwise, before that, a checked signature over the transcript by a peer whose certificates it had just accepted |
| HandshakeAuthenticity.ServerKnowsClient | handshake_server_tls13.go:1026-1143 | any run of a server on an arbitrary sequence of packets: being done implies a checked Finished under the settled secrets; a PSK in use came with a binder that checked out; and if a certificate was requested, either an accepted empty list or a checked signature over the transcript that ends with accepted certificates |
| HandshakeAgreement.NeverStuck | handshake_server_tls13.go:65-104 | a run without errors that cannot go on has completed on both sides |
| HandshakeAgreement.RunsEnd | handshake_client_tls13.go:45-159 | every run, in every interleaving, ends within 154 steps |
| HandshakeCodec.HelloBack | handshake_client_tls13.go:163-200 | what an honest server prints as ServerHello or HelloRetryRequest is read back, and passes the checks on versions, compression and forbidden extensions |
| HandshakeCodec.RealCodecLaws | handshake_messages.go:105-418 | with the modelled ClientHello, ServerHello and Finished codecs in place, the laws that the handshake rests on are met |
| HandshakeAgreement.HonestRunsAgree | handshake_client_tls13.go:45-159 | over the modelled ClientHello, ServerHello and Finished codecs, in every reachable state of every interleaving, for every combination of retry, PSK and client certificate: no check of one party against the other has failed (record keys, message types, binders, signatures, Finished, key shares), transcripts agree at each derivation point, handshake, application, exporter, resumption and ticket secrets are equal, the server's precomputed client Finished is the one sent, and a run that cannot go on without error is complete |
| HandshakeCompletion.HonestRunsComplete | handshake_client_tls13.go:45-159 | an honest handshake completes: for a hello that lists versions, compression null, no renegotiation bytes and no early data the server would refuse, configurations with a known suite and a group in common, policies that say yes and messages that can be printed, no state of any run, in any interleaving, with or without retry, resumption and client certificate, has an error on either side; every run has at most 154 steps, and one that cannot go on has both parties done, with the same application secrets and each writing under the key the other reads under |
| HandshakeCompletion.RunsOn | handshake_server_tls13.go:65-104 | under these conditions no step of either party, from any state a run reaches, ends in an error |
| QuicHandoff.Keeps | quic.go:507-527 | every action of caller and goroutine keeps the handoff invariant |
| QuicHandoff.ExclusiveOwnership | quic.go:277-288 | whenever the caller is outside a method or parsing on its own, the goroutine is parked on `signalc` or past closing `blockedc`; the two never touch shared state at once; nothing is sent on a closed channel; the goroutine never returns without closing the channels |
| QuicHandoff.BytesConserved | quic.go:277-312 | until cancellation, bytes accepted equal, in order, bytes consumed, in `hand` and in `readbuf`, even if the goroutine exits during the call; between calls `readbuf` is empty |
| QuicHandoff.EveryMethodReturns | quic.go:213-303 | every schedule: once inside a method, the caller is out of it after a bounded number of actions of both sides, and some action can always be taken, unless Close hangs |
| QuicHandoff.BlockedIffHung | quic.go:263-273 | a caller is blocked for good exactly if Close waits for the goroutine while that waits for a signal; that happens only to a Close called while a client waits for its resumption event to be drained |
| QuicHandoff.CloseCanHang | handshake_client.go:463-466 | from every reachable state in which such a client waits, Close can come to hang, since the error of that wait is dropped |
| QuicHandoff.DrainingIsReached | quic.go:448-460 | Start alone leads to such a state |
| QuicHandoff.WindowBeforeExit | conn.go:1599-1600 | a reachable state, without cancellation, in which the caller is outside and the goroutine neither parked nor exited: it has closed `blockedc` but not yet `signalc` |
| QuicHandoff.ParkedOrExitedIff | conn.go:1599-1600 | "parked or exited" holds of a caller outside exactly if the goroutine is not between its first closing and releasing the mutex, where it touches no shared state |
| QuicEvents.Queue.WriteCryptoData | quic.go:433-446 | data is added to the last undelivered event exactly if that holds data of its level, and is an event of its own otherwise; the emitted log and everything else are as the definition says |
| QuicEvents.Queue.RunHandshake | quic.go:433-460 | a burst of events of any kind, handshake data included, ending in a wait or a failure, is emitted in order |
| QuicEvents.Queue.NextEvent | quic.go:230-260 | on a queue that is not empty and has not failed, returns the head, which leaves the queue and is logged; lets the handshake run on, handshake data and all, when the last event it waited for is taken; returns an error not yet reported |
| QuicEvents.DeliversWhatIsEmitted | quic.go:230-260 | over any sequence of calls: until an error is delivered, delivered events followed by queued ones, with coalesced data split, are exactly what was emitted; after that nothing is delivered; what has been delivered never changes |
| QuicEvents.ReturnsWhatIsDelivered | quic.go:230-260 | over any run, the non-blank events that the calls returned are exactly the events delivered, in order, and after them the error if it was reported; no delivered event is an error or blank |
| QuicEvents.ReturnsWhatIsWritten | quic.go:230-260 | while the handshake has not failed, the handshake data of each level in the events returned, followed by what is queued, is what the handshake wrote for that level, byte for byte; likewise the other events |
| QuicEvents.EmptiesInOrder | quic.go:250-260 | k calls on a queue of at least k events that has not failed return its first k events in order and leave the rest, so as many calls as there are events empty it |
| QuicEvents.ErrorOnce | quic.go:240-250 | once the handshake has failed, the next call of NextEvent returns the error, if none has; after that call none returns anything |
| QuicEvents.NothingToOverwrite | quic.go:232-236 | writing over the previous event's data never changes anything, as its slot is already blank |
| QuicEvents.Coalesced | quic.go:445-445 | appending to the last event adds its bytes at the end of the log |
| Padding.ExtractPadding | conn.go:279-324 | for every payload: 255 exactly if the padding is right and bit 31 of the unpadded length is clear; below 2^31 bytes, 255 exactly if the last p+1 bytes exist and equal p, removing p+1 then and 1 otherwise (0 when empty) |
| Padding.SpreadIs | conn.go:306-309 | the bit smearing gives 255 for 255 and 0 for everything else |
| Padding.PadIsAccepted | conn.go:535-545 | the padding that CBC encryption writes is always accepted and removed in full, and fills whole blocks |
| Nonce.IncSeq | conn.go:238-250 | the byte loop adds one to the big-endian counter in place and stops on wrap-around |
| Nonce.IncrementAddsOne | conn.go:238-250 | the counter's value grows by one, and the panic comes exactly at its largest value |
| Nonce.XorNonceAead.Seal | cipher_suites.go:473-483 | seals under mask XOR sequence number and restores the mask |
| Nonce.XorNonceAead.Open | cipher_suites.go:485-495 | opens under mask XOR sequence number and restores the mask even when opening fails |
| Nonce.PrefixNonceAead.Seal | cipher_suites.go:452-455 | seals under the fixed prefix and the explicit nonce; the prefix stays |
| Nonce.PrefixNonceAead.Open | cipher_suites.go:457-460 | opens under the fixed prefix and the explicit nonce; the prefix stays |
| Nonce.AfterIs | conn.go:229-250 | the counter gives out exactly 2^64 values, the n-th being n |
| Nonce.NoncesDiffer | cipher_suites.go:440-483 | different values of the counter give different nonces, masked or prefixed |
| HalfConn.HalfConn.Encrypt | conn.go:478-561 | the object's record and new state are those of the specification, in every mode, with the MAC over counter, header and payload (`RecordBinding.MacBinds`); without a cipher the sequence number does not move |
| HalfConn.HalfConn.Decrypt | conn.go:338-460 | the object's outcome and new state are those of the specification, in every mode, with the constant-time padding check inside; a record of another count is refused (`RecordBinding.OtherCountRefused`); without a cipher the sequence number moves |
| HalfConn.HalfConn.ScanInner | conn.go:415-424 | the scan from the end finds the inner content type |
| HalfConn.HalfConn.ChangeCipherSpec | conn.go:214-224 | the prepared state is activated and the sequence number cleared, or nothing changes |
| HalfConn.HalfConn.SetTrafficSecret | conn.go:229-235 | a new AEAD is installed and the sequence number cleared |
| Record.Rekey | conn.go:206-235 | key changes keep the state well formed |
| RecordNonces.NoncesOfRun | conn.go:478-561 | in any run of records and key changes from a cleared counter, the i-th and j-th record under one key are the output of Seal under the nonces made from the counts of records before them, and those nonces differ |
| RecordNonces.NumberIs | conn.go:214-250 | in any run the counter is the number of records since the cipher was installed, and zero without a cipher |
| RecordNonces.RunOf | conn.go:478-561 | every completed sequence of writes and key changes is such a run |
| RecordRoundTrip.CbcBack | conn.go:535-549 | CBC decryption undoes CBC encryption, with chained and with explicit IV |
| RecordRoundTrip.RecordBack | conn.go:338-460 | one record, any mode: a matching reader gets content type and payload, and still matches; the writer stops exactly at counter exhaustion |
| RecordRoundTrip.OnlyAuthenticDelivered | conn.go:378-455 | whoever wrote it: under an active cipher a delivered record carried, for the reader's current sequence number, its header and payload, either the output of the MAC on those three joined or a valid AEAD tag |
| RecordBinding.MacBinds | conn.go:435-452 | if the MAC does not collide, equal tags mean equal 8-byte counters, 5-byte headers and payloads |
| RecordBinding.AdditionalDataDetermines | conn.go:511-533 | the additional data of an AEAD determines counter, type, version and length (in TLS 1.3, where the counter is in the nonce, the last three) |
| RecordBinding.OtherCountRefused | conn.go:338-460 | in every mode, stream, both CBC and both AEAD, a record written under one counter is a bad record MAC for a reader that differs only in its counter, if MAC and AEAD do not collide at these inputs |
| RecordRoundTrip.StreamsBack | conn.go:478-561 | any sequence of records and key changes: a reader activated together with the writer recovers every content type and payload in order and matches the writer after each, sequence numbers included from cipher activation on |
| Fragment.Writer.MaxPayloadSizeForWrite | conn.go:900-945 | the payload size and the packet counter, branch by branch |
| Fragment.RecordFitsSegments | conn.go:900-945 | below the boost threshold the k-th sized record takes at most k times 1208 bytes on the wire, nonce, MAC, padding and tag included, in every mode |
| Fragment.RoomIsLargest | conn.go:909-931 | in every mode in use a payload fits one segment exactly if it is no larger than the room computed |
| Fragment.AllowanceIs | conn.go:900-945 | the allowance of the k-th sized record is k times the largest payload that fits one segment, up to 16384; it is 16384 for every other record |
| Fragment.LargestForOneSegment | conn.go:933-944 | below 16384 the allowance is the largest payload that fits its k segments exactly for k = 1: the overhead is taken off every segment though it is there once |
| Fragment.MaxPayloadBounds | conn.go:900-945 | a payload size is always between 1 and 16384, so writing terminates |
| Fragment.SizeOf | conn.go:504-557 | the size of an encrypted record, in every mode |
| Fragment.Writer.WriteOneRecord | conn.go:979-1036 | the payload is the front of what is left and as large as the allowance, or all of it; a sized record is entered with its place on the wire; a failed write leaves the wire as it was |
| Fragment.Writer.WriteRecords | conn.go:979-1048 | whatever fails, the records on the wire are the encryptions of fragments of 1 to 16384 bytes that make up the front of the input, as many bytes as the call reports; each is as large as the allowance at its point (`Cuts`), but for the call's last; and over the connection the k-th sized record takes at most k times 1208 bytes |
| Fragment.Writer.Write | conn.go:1242-1254 | the same for Write, with the first byte in a record of its own in TLS 1.0 block-cipher mode |
| Fragment.WrittenIsRead | conn.go:1242-1254 | a matching reader recovers exactly these fragments |
| Reader.Reader.ReadRecordOrCCS | conn.go:608-789 | the first record that is not of a kind to be dropped decides, if it comes within 17 minus the retry count: a handshake record's plaintext, tagged with the current read epoch, is what `hand` grows by; application data is what `input` becomes; a ChangeCipherSpec changes the cipher; anything else is an error, and only that; nothing else changes |
| Reader.SkippedAreUseless | conn.go:702-789 | the records passed over are readable and each is empty application data, a warning (in TLS 1.3 user_canceled) or TLS 1.3's ChangeCipherSpec; the one that decides is not |
| Reader.Reader.ProcessChange | conn.go:744-765 | a ChangeCipherSpec changes the key only with an empty `hand` |
| Reader.Reader.RetryReadRecord | conn.go:793-800 | the recursion is bounded by the retry count |
| Reader.Reader.ReadHandshake | conn.go:1077-1120 | with and without QUIC: a message taken off `hand` came in under one read key, the current one; it and what stays are, in order, what was buffered and the plaintexts of the handshake records read since (the bytes handed in for the level, under QUIC); without a message, the last read failed, application data came, or the header announces too much |
| Reader.Reader.QuicReadHandshakeBytes | quic.go:397-404 | waits until enough bytes have come in; what is added is, in order, what the caller handed in for the current level |
| Reader.Reader.HandleDataAfterExit | quic.go:289-311 | after the goroutine's end: every complete message is parsed, in order and without loss, each under the current read key, none of it waiting for more; a connection takes at most 16 of them in all |
| Reader.Reader.SetReadTrafficSecret | conn.go:1679-1693 | a new read key is refused exactly while handshake bytes are buffered |
| Reader.Reader.HandleKeyUpdate | conn.go:1333-1369 | never under QUIC; the read key changes only if the KeyUpdate is the last thing buffered; a requested answer changes the write key, and if it cannot be written both keys stay and the error is left to the next write |
| Reader.Reader.AcceptData | quic.go:277-283 | QUIC bytes are taken exactly if they are for the current level |
| Reader.Reader.TakeReadbuf | quic.go:524-525 | taking them over keeps the epochs pure |
| Interlock.Keeps | conn.go:1201-1254 | every atomic step keeps the interlock invariant |
| Interlock.CounterIsExact | conn.go:1203-1212 | in every interleaving the counter is twice the writes in flight plus the closed bit, within bounds; at most one Close has won |
| Interlock.NoWriteAfterClose | conn.go:1424-1433 | once a Close has won it stays the winner and no Write enters |
| Interlock.CloseNotifyIsLast | conn.go:1470-1483 | close_notify goes out at most once, and no application record follows it |
| Interlock.RefusedOnlyWhenClosed | conn.go:1425-1432 | a load of the counter refuses a Write or Close exactly if a Close has won; a lost swap changes nothing and is tried again |
| TicketKeys.Keeps | common.go:1099-1134 | every step of every thread and of the clock keeps the key list's invariant |
| TicketKeys.RotationBounds | common.go:1109-1134 | adjacent keys are at least 24 hours apart, at most seven exist, and every returned key is under eight days old (the newest under one day) at the clock reading that decided |
| TicketKeys.AgesAtReturn | common.go:1109-1134 | at the moment of return: under eight days if the list was found in place; under seven days plus the time since its newest key was made if it was rebuilt, hence under eight days if that took a day or less |
| TicketKeys.LateReturn | common.go:1115-1134 | for every longer wait there is a run that returns a key of eight days or more |
| TicketKeys.KeyKept | common.go:1126-1131 | a key stays listed at least until it is seven days old |
| TicketKeys.ReturnsCurrent | common.go:1134-1134 | a call returns the list that is current at that moment |
| TicketKeys.DecryptTicket | ticket.go:370-400 | the loop over keys decrypts with the first whose tag matches |
| TicketKeys.OpensOnlyTagged | ticket.go:370-400 | nothing opens but what carries the tag of a listed key, and that key decrypts it |
| TicketKeys.CtrIsKeystream | ticket.go:340-345 | zeros encrypt to the keystream of key and IV, and two ciphertexts of one length differ by what the plaintexts do |
| TicketKeys.TicketsOpen | ticket.go:325-351 | a sealed ticket opens to the same bytes under any later list while its key is under seven days old, given that tags under distinct keys differ |
| LruCache.Cache.Put | common.go:1683-1712 | refines the list operation in every branch, including a nil state for an absent key, which is inserted; what it stores is found (`PutIsFound`) |
| LruCache.Cache.Get | common.go:1716-1725 | refines the list operation and returns the stored state |
| LruCache.RunIsLru | common.go:1683-1725 | after any operations: distinct keys, at most the capacity, most recent first, each with the state stored last |
| LruCache.PutIsFound | common.go:1683-1725 | after any operations, what a Put stores is found, unless it is the nil that removes a present key, and then nothing is; a Get changes nothing that is found |
| LruCache.StaysFindable | common.go:1683-1725 | a stored key is found, with what was stored last, until its own Put of nil or until at least as many keys as the capacity have been used after its last use |
| LruCache.FoundIsRecent | common.go:1705-1711 | of a key that is found, fewer others than the capacity were stored after its last use and not removed since |
| LruCache.HoldsThoseUsedLast | common.go:1683-1725 | while nothing is removed, a key is held exactly if fewer keys than the capacity were used after its last use, a Get that finds nothing being no use |
| LruCache.OnlyLeastRecentLeaves | common.go:1705-1711 | a key leaves only by its own removal or as the least recently used one when a new key finds the cache full |
| ServerHelloMsg.ServerHelloRoundTrip | handshake_messages.go:748-999 | a printed ServerHello or HelloRetryRequest parses back to what was sent of it (neither an empty encrypted_client_hello nor a share for group 0 is), exactly if it does not hold both forms of key_share and no timestamp is empty |
| ServerHelloMsg.ContentBack | handshake_messages.go:909-991 | each extension body parses back to the field it was printed from |
| CertificateMsg.Marshal | handshake_messages.go:1395-1423 | the printer fills one buffer in place with the message |
| CertificateMsg.CountCerts | handshake_messages.go:1435-1448 | first pass: the announced length and the bytes left never differ, so the unsigned subtraction never wraps; it accepts exactly the well-formed lists and counts them |
| CertificateMsg.Unmarshal | handshake_messages.go:1425-1459 | both passes compute the plain reading |
| CertificateMsg.CertificateRoundTrip | handshake_messages.go:1395-1459 | within the 24-bit range a Certificate parses back, exactly if its last certificate is not empty |
| CertificateMsg.CertificatePrefixFails | handshake_messages.go:1425-1433 | no strict prefix of an accepted Certificate is accepted |
| CertificateMsg.ReadPairs | handshake_messages.go:1811-1816 | the index loop reads the list of algorithms |
| CertificateMsg.RequestRoundTrip | handshake_messages.go:1726-1848 | a CertificateRequest parses back exactly if it names a certificate type and, where listed, an algorithm |
| CertificateMsg.RequestPrefixFails | handshake_messages.go:1776-1784 | no strict prefix of an accepted CertificateRequest is accepted |
| CertificateList.ChainBack | handshake_messages.go:1486-1599 | a printed certificate list reads back as what of it can be kept, exactly if the leaf's OCSP response and timestamps are not empty; anything may follow |
| CertificateList.Certificate13RoundTrip | handshake_messages.go:1467-1539 | the TLS 1.3 Certificate message carries exactly the extensions asked for |
| SessionState.SessionRoundTrip | ticket.go:111-294 | a printed session reads back in full, leaving nothing, exactly if it has a secret, its certificates parse, and a client session has the server's certificate |
| SessionState.ReadExtends | ticket.go:187-294 | the session parser never looks beyond what it consumes |
| SessionState.SessionPrefixFails | ticket.go:187-294 | no strict prefix of a session encoding parses |

## Left out

- The TLS 1.0 to 1.2 handshake flow and its PRF: the TLS 1.3 pair exercises the harder agreement.
- ECH inside the handshake (acceptance confirmation, inner transcript, retry configurations), HPKE and the outer additional data: the codec half of ECH is modelled on its own.
- 0-RTT secrets and the early read level: early data is only cleared on a retry and refused where the code refuses it.
- EncryptedExtensions, certificate and signature contents in the handshake: opaque bodies and chains; choosing certificates and signature schemes is a parameter, as are ALPN, version and policy checks of the hello.
- The dummy ChangeCipherSpec records of the TLS 1.3 handshake.
- HandshakeAgreement.HonestRunsAgree: EncryptedExtensions, certificate messages and tickets have bodies that are opaque in the handshake, so that they decode to themselves is assumed; a message that cannot be printed stops its sender.
- HandshakeCompletion.HonestRunsComplete: what `accepts`, `trusts` and `acceptsCert` decide, and whether a message can be printed, are conditions; the ALPN and version policies are inside `accepts`.
- HandshakeObjects.ServerHandshake.ProcessClientHello: the fallback, ALPN and QUIC checks are a parameter, taken before the retry where the code takes ALPN after it; no Encrypted Client Hello.
- HandshakeObjects.ServerHandshake.CheckResumption: what makes a ticket acceptable (age, version, certificates) is folded into the lookup; 0-RTT acceptance and the session events of QUIC are not modelled.
- HandshakeObjects.ServerHandshake.SendServerParameters: no dummy ChangeCipherSpec and no ECH confirmation; the contents of EncryptedExtensions are opaque.
- HandshakeObjects.ServerHandshake.SendCertificates: the contents of the request and of the certificates are opaque, and the signature scheme is part of signing.
- HandshakeObjects.ServerHandshake.SendSessionTickets: one ticket with an empty nonce; lifetime, age and early data fields are not modelled.
- HandshakeObjects.ServerHandshake.ReadFromClient: the choice of signature scheme and chain verification are parameters.
- HandshakeObjects.ClientHandshake.ProcessHelloRetryRequest: no ECH inner hello and transcript.
- HandshakeObjects.ClientHandshake.ProcessServerHello: no ECH acceptance; checks on the message alone are in `HandshakeCodec.Acceptable`.
- HandshakeObjects.ClientHandshake.ReadFromServer: ALPN, early data and ticket lifetime checks are not modelled; chain verification is a parameter.
- HandshakeObjects.ClientHandshake.SendClientCertificate: choosing the certificate is a parameter; no ECH rejection.
- HandshakeAuthenticity.ClientKnowsServer: signatures and MACs are checked by the model as the code checks them; what such a check proves about the peer is a matter of the primitives.
- Several messages in one record, and record boundaries, in the handshake model: messages travel whole, sealed under the sender's traffic secret.
- The order of certificate extensions and the interleaving of checks within one parser: a parser's outcome is modelled, not which of several errors it reports.
- Sequence numbers of 64 bits are exact; lengths are unbounded integers except where a field or a conversion truncates them.
- Item loops of the ClientHello, ServerHello, certificate and session parsers: `Wire.ReadItems` is their common loop; the bodies are functions.
- Choosing the group: the two library sorts are modelled by what a stable sort by a yes-no key yields.
- CertificateMsg.RequestRoundTrip: stated on fields within their ranges; the printer silently truncates longer ones.
- CertificateMsg.CountCerts: assumes messages under 2^32 bytes, which the message reader guarantees.
- RecordRoundTrip.StreamsBack: the alert and the state after a failed decryption are not described, since the connection is then dead.
- Fragment.Writer.WriteRecords: buffering during the handshake is not modelled; a record that goes out in part is not on the modelled wire.
- RecordNonces.NoncesOfRun: one key means one installed cipher; that the key schedule never installs the same key twice is `KeySchedule.SecretsDiffer`.
- QuicHandoff.BytesConserved: nothing is claimed after cancellation, where the goroutine may return without taking `readbuf`.
- QuicHandoff.EveryMethodReturns: the handshake's own work between two waits is a bounded number of parses; what it computes is not part of this state.
- Reader.Reader.ReadHandshake: taken while no bytes wait in `readbuf`, as `QuicHandoff` shows until cancellation; renegotiation up to TLS 1.2 is not modelled.
- Reader.Reader.SetReadTrafficSecret: relies on `readbuf` being empty while the handshake goroutine works, which `QuicHandoff` shows until cancellation.
- TicketKeys.RotationBounds: bounds ages at the deciding reading; `AgesAtReturn` and `LateReturn` say what holds at return.
- TicketKeys: explicitly configured keys, the legacy key field and cloning of configurations.
- LruCache.Cache.Put: the linked list is a sequence of shared entry objects; constant-time access is not modelled.
- Groups.SettlesInOneRetry: both configurations are taken at TLS 1.3.
- Timing of the constant-time code, the certificate cache, key logging, sockets, dialing and PEM loading.
- `parseECHConfigList`, certificate verification, and alert texts.
