# A verified model of soroban-encrypt

soroban-encrypt encrypts a file, splits its key with Shamir's scheme over n self-hosted nodes, and lets a
caller on an on-chain allowlist collect t shares and decrypt. This project models the parts of it whose
correctness cannot be read off one function, and proves what they promise.

| file | what it holds |
|---|---|
| `Basics.dfy` | bytes, little-endian words, hexadecimal text |
| `Crypto.dfy`, `Consistency.dfy` | the cryptographic operations as functions with stated laws, share encryption on top of them, and a suite showing that the laws can be met |
| `Container.dfy`, `Streaming.dfy` | the SE02 container: printer, parser, decoder as functions; the encryptor and decryptor as imperative programs over a cursor, one reused buffer and an output file |
| `KeyRing.dfy` | the key manager, and any number of rotations interleaved, each write of the critical section a step |
| `ShareStore.dfy` | the share bucket, POST /store (check and save as separate transactions) and DELETE /shares |
| `Retrieve.dfy`, `Node.dfy` | POST /retrieve, and one node with any number of requests of all kinds under way |
| `Client.dfy`, `Recovery.dfy`, `Records.dfy`, `OtherObjects.dfy` | the client program over a network in which others act between any two steps; end-to-end recovery; what an encryption leaves at the nodes, byte for byte |
| `Rotations.dfy` | recovery while the nodes rotate their keys and lose shares |
| `Availability.dfy`, `Example.dfy` | that encryption and decryption do succeed when nothing is in the way, and concrete runs: a small network that meets the hypotheses, and runs in which a promise fails |
| `RateLimit.dfy` | token buckets over real time, per address (drawn on twice by /retrieve) and per object |
| `Transaction.dfy`, `Grants.dfy` | the approve() envelope, its verifier, the simulation's verdict, and grants interleaved with retrieval |
| `Allowlist.dfy`, `MultiAdmin.dfy`, `PerObject.dfy` | the contract modules |

## How it is built

Code that updates state is imperative here as well: each class or method is proved equal to a specification
function of the old state, and the results are lemmas about those functions. Concurrency is a step system: the
same functions, cut at the points where the program reads or writes shared state, run in every order.

Cryptography is idealised. `Suite.Lawful` states AES-GCM as sections 7.1 and 7.2 of NIST SP 800-38D give it
(opening undoes sealing, 16 bytes of tag, 12 bytes of nonce, whatever opens is the sealed form of what it opens
to), symmetric key agreement with non-empty public keys, SHA-256 digests of 32 bytes, and Shamir sharing with the
parameter checks of the library and its refusal of a list that holds a share twice. That a wrong key is rejected is not a law. It is a hypothesis (`IdealFor`) about one
ciphertext and the keys of the rings concerned, made of two primitive ones: the other private keys derive other
secrets, and the ciphertext does not open under those. It is used only where keys rotate: for the exact service
condition and in `Rotations.dfy`. `Codec.Lawful` states that SEP-0023 address texts and RFC 4506 envelopes survive a
round trip. Random values are parameters. Outcomes of disk transactions, lost messages, clock readings, simulation
answers of the network and everything other parties do are inputs, universally quantified.

Where code and comments disagree the code is followed:

- client/streaming.go:25 says small files use a single block; the code always cuts every 4 MiB and ignores
  `compress`.
- node/keymanager.go:91-92 speaks of re-encryption and a grace period; nothing is re-encrypted and a retrieve
  uses the current key only. `OldVersionIsNotServed` is a run in which an old share is lost to the handler,
  `ServedExactlyByActiveVersion` the exact condition.
- The original repository's README.md:82-92 shows an approve() that demands the caller's authorisation; contract/src/lib.rs:46-50 does not, and
  node/main.go:106-184 compares contract, function and source account but not the arguments. So the simulation speaks
  about the account named in the arguments: `GatesMeanNamedIsAllowed` and `ReleasedOnlyIfNamedWasGranted` hold of
  every envelope, `ApprovalSpeaksOfCaller` says exactly when that is a statement about the caller, and
  `ReleasedThoughNeverGranted` is a run in which it is not. With an envelope of the client's builder it always is.
- docs/threat_model.md:19-20 says that additional data ties a share to its object; BuildAAD is passed to neither Seal
  nor Open, and the signed message of a retrieve request is not compared with the request. So a body stored under two
  pairs is served under both (`SealedFormIgnoresPair`, `MessageIsNotCompared`). A released share was sent to the store
  under the pair of the request (`ReleasedWasSentForPair`), but need not have been sealed for it.
- The bound of (b + rT)/2 on retrieve requests holds of all traffic that can arise exactly when none of the address's
  requests is between the two limiters as the window opens, or nothing is ever granted or refilled
  (`HalfBoundExactlyWhen`). `DoubleChargeBound` carries the number of those and `InFlightBoundIsAttained` shows that it
  is attained. A limiter reads the clock before it takes its lock, so readings can reach it out of order; all bounds
  carry what they go back, and `BackwardTermIsNeeded` is a window in which that is needed.
- node/ratelimit.go:41 speaks of limits per IP; the code takes the part of the address before its first colon, so all
  IPv6 clients with the same first group share one bucket (`BracketedAddressesShare`). For hosts without a colon the
  bounds are per host, over all its ports.
- The error of the write-once check's read is dropped (node/handlers.go:113), so a failed read admits a request that
  did not ask to overwrite (`AcceptedWhenReadFails`). `WriteOnce` counts such a store among the overwrites;
  `StrictlyWriteOnceExactlyWhen` says exactly when the promise holds with X-Overwrite alone, and
  `FailedReadBreaksPromise` is a history in which it does not. For the client program this means that a node listed
  twice does not always end in a conflict: `MetadataExactlyWhen` says exactly when metadata is written, and
  `ListedTwice` is a run in which it is written although the second share has replaced the first, every node answers,
  and decryption fails.

## Model

| member | source | states |
|---|---|---|
| Basics.Le32RoundTrip | client/streaming.go:76-84 | reading a little-endian uint32 gives back the word that was written |
| Basics.Le32Bytes | client/streaming.go:76-84 | of the four bytes of a word the first is the least significant |
| Basics.HexRoundTrip | client/main.go:350-352 | hexadecimal text decodes to the bytes it was made from |
| Basics.HexEncodeExactly | client/main.go:129 | every byte becomes two lower-case digits, the high one first |
| Basics.HexDecodeDomain | node/handlers.go:94-107 | a text decodes if and only if it has an even number of hexadecimal digits of either case |
| Basics.HexDecodeExactly | node/handlers.go:94-107 | every two digits of a text that decodes are a byte, the high one first |
| Crypto.EciesRoundTrip | client/crypto.go:65-103 | a share sealed for a node's public key is read back exactly with that node's private key |
| Crypto.DecryptsExactly | node/crypto.go:24-55 | a record opens to a share if and only if it is that share sealed under the agreed secret; a nonce of the wrong length panics, everything else is an error |
| Crypto.OthersCannotOpen | node/crypto.go:24-55 | when the other keys derive other secrets, and the ciphertext opens under none of those, none of the other keys decrypts the share |
| Crypto.AadInjective | node/crypto.go:106-108 | the additional data is the same for two pairs only if the pairs are, for contract ids free of the separator |
| Consistency.LawsAreConsistent | node/crypto.go:24-55 | the laws assumed of the cryptography, and the ideal hypotheses for two keys, can hold together |
| Example.ListedTwice | client/main.go:140-177 | a run in which a node is listed twice, the second write-once check fails to read, metadata is written, the second share has replaced the first, and decryption fails although every node answers |
| Example.OldVersionIsNotServed | node/keymanager.go:89-94 | after one rotation, any share sealed for the first key is not opened by the handlers' key, though version 0 of the ring opens it |
| Example.RotationHypothesesCanBeMet | node/keymanager.go:63-87 | a concrete network meets the hypotheses of the recovery despite rotations with a node that rotates between encryption and collection |
| Example.HypothesesCanBeMet | client/main.go:75-323 | a concrete network of two nodes meets the hypotheses of the undisturbed round trip and of the recovery amid other objects, and so of recovery on a calm network, for every file AES-GCM can seal |
| Example.NamingRequest | node/main.go:106-184 | a concrete request that has everything but approval and whose envelope names another account than the caller |
| Container.ParsePrint | client/streaming.go:75-90 | for 1 to 10000 chunks below 2^32 bytes, parsing the printed form gives the chunks back and leaves trailing bytes as the rest |
| Container.PrintParse | client/streaming.go:136-165 | whatever the decoder reads fully is the printed form of a valid chunk list followed by the rest |
| Container.BlocksCutThePlaintext | client/streaming.go:54-73 | a file is cut into ceil(length / 4 MiB) non-empty blocks in order, all full except possibly the last |
| Container.DecodeChunksMeaning | client/streaming.go:161-177 | wherever the chunk loop stops, the output is the plaintexts of the complete leading chunks that open, and it succeeds exactly when those are all the announced ones |
| Container.AcceptedBody | client/streaming.go:136-179 | a body is accepted exactly when it parses and every chunk opens; the output is then their plaintexts |
| Container.AcceptedFileIsPrinted | client/streaming.go:96-179 | an accepted SE02 file is the magic and the printed form of blocks sealed under the key, whose plaintexts are the output |
| Container.FileRoundTripExact | client/streaming.go:26-179 | decrypting an encrypted file gives the plaintext if and only if 1 <= length <= 10000 * 4 MiB; otherwise the encoder succeeds and the decoder refuses the count |
| Container.ParseIgnoresTail | client/streaming.go:161-178 | bytes after an accepted body change neither the chunks nor the acceptance |
| Container.CutPrintDoesNotParse | client/streaming.go:137-165 | a printed chunk list cut anywhere no longer parses |
| Container.NoTruncatedFileAccepted | client/streaming.go:96-178 | every strict prefix of an encoder output makes decryption fail |
| Container.TruncatedOutputIsPrefix | client/streaming.go:152-178 | what is written of a truncated file is a run of leading blocks, fewer than all, and a prefix of the plaintext |
| Container.OneChunkFormat | client/streaming.go:26-93 | up to 4 MiB the encoder writes the magic SE02, the count 1, the size, the nonce and the sealed file |
| Container.ManyChunksFormat | client/streaming.go:54-93 | in general it writes the magic and the printed list of one chunk for each 4 MiB, each its own nonce and the sealed block |
| Container.SingleChunkOpens | client/streaming.go:118-134 | the magic SE01, a nonce and a sealed plaintext decode to that plaintext |
| Container.SingleChunkAcceptsOnly | client/streaming.go:118-134 | a file with that magic is accepted only if it has this form, and the output is the plaintext |
| Container.SingleChunkRefuses | client/streaming.go:118-134 | every other ending of such a file under its exact condition, without output |
| Container.ChunkedRefuses | client/streaming.go:136-160 | the endings of an SE02 file before its chunks are read, each under its exact condition, and whether there is an output then |
| Container.DecodeChunksEnds | client/streaming.go:161-178 | the chunk loop ends at the first chunk that is cut off, shorter than a nonce, or does not open, with that error and index |
| Container.OtherMagicRefused | client/streaming.go:96-116 | a file with neither magic is refused without output |
| Streaming.SealNext | client/streaming.go:56-73 | one turn of the read loop takes one block off the rest of the file and seals it into a new array |
| Streaming.SealAll | client/streaming.go:54-73 | the read loop collects the sealed blocks of the whole file, in arrays that do not share the reused buffer |
| Streaming.EncryptFileStreaming | client/streaming.go:26-93 | the output is the encoded file for a valid key, and the bare magic with an error for any other |
| Streaming.ReadSizes | client/streaming.go:145-150 | the size array holds the table, or reading stops at the first size the file does not hold |
| Streaming.DecryptV1 | client/streaming.go:118-134 | the ending of the single-chunk format is that of its specification, and so is the output, whatever was at the destination before; an early error leaves that in place |
| Streaming.DecryptV2 | client/streaming.go:136-179 | the ending and the output of the chunked format, errors and partial output included, are those of its specification, whatever was at the destination before; an error before the output is created leaves that in place |
| Streaming.DecryptFileStreaming | client/streaming.go:96-116 | the format is chosen by the magic; unknown or missing magic is an error that leaves the destination as it was |
| KeyRing.KeyManager.constructor | node/keymanager.go:29-45 | the ring starts with the loaded key as version 0 and as the node key pair |
| KeyRing.KeyManager.GetKey | node/keymanager.go:55-60 | the entry of the version, if there is one |
| KeyRing.KeyManager.Rotate | node/keymanager.go:63-87 | a rotation adds the next version (modulo 2^64), makes it current, and makes its key the node key pair |
| KeyRing.KeyManager.HandleRotateKey | node/rotate_handler.go:18-27 | undisturbed, the handler reports the version it created |
| KeyRing.RotateAlone | node/keymanager.go:63-87 | a call that runs alone through the interleaved steps ends in the same ring and report as the method |
| KeyRing.ConcurrentRotation | node/keymanager.go:63-76 | after N < 2^64 publications in any interleaving the ring is exactly 0..N in order of publication, versions 1..N were handed out, outside the critical section the node key pair is the current entry, and no call reports less than its own version |
| KeyRing.ReportsLatest | node/rotate_handler.go:18-27 | a call reports the version of the latest publication at the moment it reports, which need not be its own |
| KeyRing.EntriesKeptUntilWrap | node/keymanager.go:70-72 | a publication keeps all earlier entries if and only if the version counter does not wrap onto a different key |
| KeyRing.RunExtends | node/keymanager.go:63-76 | published keys and ring entries are never changed by later steps |
| KeyRing.FetchedKeyStaysRecoverable | node/keymanager.go:55-76 | whatever is sealed under a public key fetched at any moment, some version up to the current one of every later ring opens |
| KeyRing.OnlyOneVersionOpens | node/crypto.go:24-55 | among distinct keys, exactly the addressee's gives the share back |
| KeyRing.ServedExactlyByActiveVersion | node/handlers.go:207-211 | a share is decrypted to the original if and only if the version it was sealed for is the active one then, which outside a publication is the current version |
| ShareStore.BoltStore.Save | node/store.go:50-59 | a save sets one key or fails without effect |
| ShareStore.BoltStore.Load | node/store.go:61-78 | a load finds a key exactly when it is present with a non-nil ciphertext, and returns its record |
| ShareStore.BoltStore.Delete | node/store.go:92-97 | a delete removes one key or fails without effect |
| ShareStore.BoltStore.Count | node/store.go:80-90 | the counter ends at the number of keys |
| ShareStore.BoltStore.ListKeys | node/store.go:118-128 | the list holds every key of the bucket once |
| ShareStore.StoreKeyInjective | node/handlers.go:109 | store keys are the same for two pairs only if the pairs are, for contract ids without underscore |
| ShareStore.HandleStoreShare | node/handlers.go:78-136 | reply and bucket after a store request are those of validation, write-once check and save in this order |
| ShareStore.HandlePurgeShares | node/rotate_handler.go:31-53 | a purge removes the pair's key or fails without effect |
| ShareStore.StoreReplyExactly | node/handlers.go:88-136 | each reply of a store request under its exact condition, and the record, decoded from the body, that a success leaves |
| ShareStore.WriteOnce | node/handlers.go:111-128 | in every history a key's value is that of the last accepted store since the last purge that asked to overwrite or whose check could not read, or else of the first accepted store; Load finds it exactly when there is one |
| ShareStore.AcceptedWhenReadFails | node/handlers.go:111-128 | on a taken key, a well-formed store that does not ask to overwrite is accepted if and only if the read of its check failed, and then replaces the record |
| ShareStore.StrictlyWriteOnceExactlyWhen | node/handlers.go:111-128 | the value is that of the last accepted X-Overwrite, or else of the first accepted store, all along a history, if and only if no accepted store in it, not asking to overwrite and with a failed read, put another value on a taken key |
| ShareStore.FailedReadBreaksPromise | node/handlers.go:113 | a history of two plain stores that ends with the second value |
| ShareStore.RefusedChangesNothing | node/handlers.go:88-128 | a request that is not answered with success leaves the store unchanged |
| ShareStore.AtomicRequest | node/handlers.go:109-128 | a request without interruption is its check step followed by its save step |
| ShareStore.LateCheckConflicts | node/handlers.go:111-117 | a non-overwriting store whose check comes after a save of the key, with no purge in between, gets the conflict whatever else interleaves |
| ShareStore.ReplacedOnlyByOverlap | node/handlers.go:111-128 | if a non-overwriting store saves on a taken key, the value it replaces is that of the last save of another request under the key, and that save came after its own check |
| ShareStore.SentinelAgreesWithMembership | node/store.go:61-90 | in every reachable state Load finds exactly the keys in the bucket, so the counts agree with the loadable shares |
| ShareStore.PlainPairOwnsKey | node/handlers.go:109 | a pair without any underscore shares its key with no other pair whatever |
| ShareStore.OtherPairsUntouched | node/handlers.go:109-128 | no run of stores and purges of other pairs, whatever they are named, changes what Load returns for a pair without underscores; with one in its object id, others must keep theirs out of contract ids |
| Retrieve.HandleRetrieveShare | node/handlers.go:139-221 | the reply is that of the first failing gate, or the stored share opened with the node's present key; the object's quota is charged once, and only after the field check |
| Retrieve.ReleasedExactlyWhen | node/handlers.go:149-218 | a given share is returned if and only if the fields, the quota, the signature and the transaction are in order, an error-free simulation answer came, and the stored record opens to it |
| Retrieve.SimulationDecides | node/main.go:211-253 | a request passes only if an answer came, without RPC or execution error, with results of which none failed; the error and the denial each under their exact condition |
| Retrieve.EarlierRefusals | node/handlers.go:149-182 | the replies before the simulation, each exactly when its test is the first to fail |
| Retrieve.ServedExactly | node/handlers.go:199-218 | the replies after the gates, each under its exact condition |
| Retrieve.ReleasedWasSentForPair | node/handlers.go:199-218 | after any history of stores and purges, a released share was sent to the store under the pair of the request |
| Retrieve.SealedFormIgnoresPair | node/crypto.go:24-55 | one body stored under two pairs is served under both alike |
| Retrieve.MessageIsNotCompared | node/handlers.go:161-175 | any two messages the caller signed pass the gates equally |
| Node.AtomicRetrieve | node/handlers.go:139-221 | a retrieve without interruption gets what the handler returns and leaves nothing behind |
| Node.ReleasedNeedsApproval | node/handlers.go:177-218 | in every interleaving, a request that is answered with a share had a simulation answer that came and approved |
| Node.StoredSharesStayRecoverable | node/keymanager.go:55-76 | over all interleavings of all requests, a stored share sealed under any published key is opened by that version of the ring |
| Node.FetchAnswersPublishedKey | node/handlers.go:64-75 | every fetch, even during a publication, answers the public half of a published key |
| Node.AnsweredExactlyByActiveVersion | node/handlers.go:199-218 | a request past its gates is answered with the original share if and only if its version is active at decryption |
| Client.HandleEncrypt | client/main.go:75-193 | network, encrypted file and metadata after the program, at every early exit too, are those of its specification |
| Client.MetadataSays | client/main.go:116-188 | metadata names, as object id, the hexadecimal SHA-256 of the ciphertext that follows the nonce in the written file, the contract, the threshold and the first n nodes as given |
| Client.EncryptRefuses | client/main.go:87-136 | nothing is written without contract, nodes or nodes enough; with share numbers the library refuses, only the encrypted file is, and no node is contacted |
| Client.SplitCommasExactly | client/main.go:92 | the node list is cut at every comma and nowhere else |
| Client.TrimSpaceExactly | client/main.go:141 | blanks are dropped from both ends of an address and nothing else |
| Client.HandleDecrypt | client/main.go:195-323 | the program's outcome, with its stop at enough shares and all error exits, is that of its specification |
| Client.RequestSays | client/main.go:224-262 | the request carries the metadata, the caller, the message made of object and contract, its signature and the transaction built for all three |
| Client.DecryptRefuses | client/main.go:195-262 | the endings before any node is asked, each under its exact condition |
| Recovery.StoreSaves | node/handlers.go:109-128 | a store that succeeds, whatever the others do, leaves the sent record under its key, and found nothing there if its check could read |
| Recovery.StoreLands | node/handlers.go:109-128 | on a calm network it also leaves the private key and the other nodes' shares, and a node that held one of the shares accepts it only if its check failed to read |
| Recovery.PlacingAddsOne | client/main.go:140-169 | one turn of the distribution loop leaves its share on its node and disturbs no other; on a node visited before only if the check failed to read |
| Recovery.SecondVisit | client/main.go:163-168 | a visit to a node that already holds one of the shares is answered with the conflict if the check can read, and otherwise with how the save went |
| Recovery.RetrievalBringsShare | client/main.go:374-406 | if the key a node has at decryption reads nothing but the share out of the record it found, then what comes back is the share, if anything does |
| Recovery.CollectIsFirst | client/main.go:264-291 | the collection loop returns the first successes of asking every node in turn, as many as are needed |
| Recovery.CollectedAreShares | client/main.go:270-291 | the first answers are the shares of the nodes they came from |
| Recovery.MetadataMeansHolders | client/main.go:140-188 | metadata is written only when every listed node holds the share it was sent last, which for distinct nodes is its own; a node is listed again only where the check of that visit failed to read |
| Records.MetadataMeansSealedRecords | client/main.go:116-188 | metadata is written only when every listed node stores, under the contract, an underscore and the hexadecimal SHA-256 of the ciphertext, the record of the share it was sent last: ephemeral public key, sealed share and nonce |
| Recovery.DuplicateNodeNeedsFailedCheck | client/main.go:140-177 | listing a node twice, in any positions, ends without metadata unless the second write-once check failed to read |
| Recovery.ReconstructFile | client/main.go:293-313 | t shares rebuild the file if none is there twice, and fail to combine otherwise; fewer are reported as too few |
| Recovery.ThresholdRecovery | client/main.go:132-313 | after an encryption that wrote its metadata, decryption returns exactly the original file if at least t nodes answer with success, and the number of answers otherwise, for every pattern of failed messages and transactions, purges and rotations, as long as no asked node reads anything but its share out of the record it finds; with a node twice among the first t that answer, combining fails |
| Recovery.RecoveryWhenCalm | client/main.go:132-313 | the same when, from each key fetch on, nobody rotates a metadata node or overwrites or purges its share |
| OtherObjects.RecoveryAmidOtherObjects | client/main.go:132-313 | the same from plain terms, with no assumption about the cipher beyond the laws: others fetch, generate but do not publish keys, retrieve, and store or purge other objects; messages get lost and transactions fail at will |
| Rotations.RecoveryDespiteRotations | client/main.go:132-313 | the same from plain terms when the others do anything but store under the key, from before the encryption on: nodes may rotate and purge at any moment, and with ideal cryptography decryption returns the file if and only if t nodes still answer, never a wrong one |
| Availability.DistributionExactlyWhen | client/main.go:140-169 | among others who stick to other objects, distribution succeeds if and only if every visit works: the node is there, no message is lost, the save works, and the check finds nothing or fails to read |
| Availability.MetadataExactlyWhen | client/main.go:75-193 | metadata is written if and only if every visit works; so a node listed twice, or holding something already, stops it if and only if the check there can read |
| Availability.RetrievalSucceeds | node/handlers.go:139-221 | a node that holds its share gives it back to a caller whom the gates let through |
| Availability.EverybodyAnswers | client/main.go:270-291 | when nothing fails any more, each of the n metadata nodes answers with success |
| Availability.GrantedIsCleared | node/handlers.go:149-197 | the request the client makes passes the gates whenever its caller signs properly, has quota and is allowed by the contract |
| Availability.UndisturbedRoundTrip | client/main.go:75-323 | when every visit works and every message and read afterwards, a caller on the allowlist gets exactly the file if the first t nodes are distinct, and a failure to combine otherwise |
| RateLimit.Limiter.Allow | node/ratelimit.go:46 | one draw from a bucket refilled at the rate and capped at the burst |
| RateLimit.LimiterStore.Get | node/ratelimit.go:30-39 | a limiter is made full on first use and shared from then on; no other limiter changes |
| RateLimit.LimiterStore.Allow | node/ratelimit.go:30-46 | a draw for one key changes that key's bucket only |
| RateLimit.RateLimitMiddleware | node/ratelimit.go:42-54 | a request draws on the bucket of its host, whatever the port, and on no other |
| RateLimit.IpOfExactly | node/ratelimit.go:45 | for a host without a colon, an address is counted under the host if and only if it is the host alone or followed by a colon and a port |
| RateLimit.HostWindowBound | node/ratelimit.go:42-54 | in any T seconds the requests of one host, over any ports, are let through at most burst + rate * (T + B) times |
| RateLimit.BracketedAddressesShare | node/ratelimit.go:45 | all IPv6 addresses with the same first group share a bucket |
| RateLimit.CheckObjectRateLimit | node/ratelimit.go:57-61 | a retrieve draws on the bucket of its object, one token a second with a burst of five |
| RateLimit.AllowIsPaidFor | node/ratelimit.go:32-46 | between two clock readings, the later one ahead or not, a bucket grants no more than its level at the first plus the refill |
| RateLimit.WindowBound | node/ratelimit.go:30-54 | in any T seconds a key is granted at most burst + rate * (T + B) draws, whatever the others do, where B is how far its clock readings go back in all, 0 when they come in order |
| RateLimit.RefusalsLeaveNoTrace | node/ratelimit.go:46 | leaving the refused draws out of a history changes neither the later grants nor any bucket |
| RateLimit.BackwardTermIsNeeded | node/ratelimit.go:46 | five readings that go back twice exceed the bound without B |
| RateLimit.ObjectQuota | node/ratelimit.go:57-61 | after any history one object passes at most 5 + T + B times in T seconds |
| RateLimit.FreshObjectPasses | node/ratelimit.go:57-61 | no two objects share a quota, and the first five requests for an object that was not asked for yet pass, whatever is asked of the others |
| RateLimit.ReachedArePaidTwice | node/server.go:35-39 | each request reaching the retrieve handler was granted twice, save the first grant of those already under way |
| RateLimit.DoubleChargeBound | node/server.go:35-39 | in any T seconds, 2 n <= burst + rate * (T + B) + f for the n requests of one host, over any ports, that reach the retrieve handler, f of its requests being between the limiters at the start |
| RateLimit.ArrivalsStaySolvent | node/server.go:35-39 | no run of arrivals overdraws a bucket |
| RateLimit.InFlightBoundIsAttained | node/server.go:35-39 | for every positive rate and burst, and f up to the burst and of its parity, traffic that a run leads to from the start, with f requests under way, brings exactly (burst + f) / 2 to the handler in a window of length 0 |
| RateLimit.HalfBoundWithoutRefill | node/server.go:35-39 | at rate 0, traffic that a run leads to from the start brings at most burst / 2 to the handler, however much is under way |
| RateLimit.HalfBoundExactlyWhen | node/server.go:35-39 | 2 n <= burst + rate * (T + B) holds for all traffic that a run leads to with f requests under way, and all windows after it, if and only if f, the burst or the rate is 0 |
| Transaction.BuiltIsAccepted | client/transaction.go:13-98 | an envelope that was built is accepted for its contract and caller, and decodes to one approve call with the object id bytes and the caller as arguments |
| Transaction.AcceptanceBinds | node/main.go:106-184 | an accepted envelope is accepted for one contract, function and caller only |
| Transaction.AcceptedExactlyWhen | node/main.go:106-196 | an envelope is accepted if and only if it is a transaction of the caller with exactly one operation, a call of the function of the contract |
| Transaction.RejectedExactly | node/main.go:106-196 | each rejection exactly when its test is the first to fail |
| Transaction.BuiltIsAcceptedForNothingElse | node/main.go:106-184 | a built envelope is accepted if and only if contract, function and caller are the ones it was built for |
| Transaction.SimulateSorobanTx | node/main.go:211-253 | approval if and only if an answer came without any error and with results; an error without an answer, on an RPC error, or with neither an execution error nor results; a denial otherwise |
| Allowlist.AllowlistContract.Init | contract/src/lib.rs:18-24 | the admin and name are set once; a second init panics |
| Allowlist.AllowlistContract.Add | contract/src/lib.rs:27-31 | with the admin's authorisation the account is added, otherwise nothing changes |
| Allowlist.AllowlistContract.Remove | contract/src/lib.rs:34-38 | with the admin's authorisation the account is removed, otherwise nothing changes |
| Allowlist.AllowlistContract.Approve | contract/src/lib.rs:46-50 | approve succeeds exactly for allowed callers |
| Allowlist.AllowedByLastGrant | contract/src/lib.rs:27-43 | an account is allowed if and only if the last add or remove of it that the admin of the first init authorised was an add |
| Allowlist.UnauthorisedChangesNothing | contract/src/lib.rs:27-38 | an add or remove without the admin's authorisation, or before init, changes nothing |
| Allowlist.AdminIsFirst | contract/src/lib.rs:18-24 | the admin is whom the first init named, in every history |
| Allowlist.AdminNeverChanges | contract/src/lib.rs:18-24 | after the first successful init no call changes the admin |
| Grants.ChainFollowsCalls | contract/src/lib.rs:18-38 | each contract's storage is that of its own calls in order, whatever interleaves |
| Grants.GatesMeanNamedIsAllowed | node/handlers.go:177-197 | whatever envelope a request carries, passing the gates means that the account named in its arguments is allowed by the request's contract at that moment |
| Grants.ApprovalSpeaksOfCaller | node/main.go:106-184 | for a request that passes all other gates, approval implies that the caller is allowed, on every chain, if and only if its call names the caller or is no approve call that could succeed |
| Grants.OtherNameIsAccepted | node/main.go:106-184 | the envelope of one account whose call names another is accepted as the former's |
| Grants.BuiltNamesCaller | client/transaction.go:13-98 | an envelope of the client's builder names its caller |
| Grants.ReleasedOnlyIfNamedWasGranted | node/handlers.go:161-218 | over all interleavings and for every envelope, a share is released only if the last accepted add or remove, before that request's simulation, of the account named in its arguments was an add |
| Grants.GatesMeanAllowed | client/transaction.go:13-98 | the corollary for an envelope of the client's builder: passing the gates means that its caller is allowed |
| Grants.ReleasedOnlyIfGranted | client/transaction.go:13-98 | the corollary for a request with an envelope of the client's builder, whatever envelopes others send: its share is released only if the last accepted add or remove of its caller before its simulation was an add |
| Grants.ReleasedThoughNeverGranted | node/handlers.go:161-218 | for every request that names another account and has everything but approval, a run that releases the share to a caller who was never added |
| MultiAdmin.AdminContract.RequireAnyAdmin | contract/src/multi_admin.rs:25-33 | the walk succeeds exactly for a listed caller who authorised |
| MultiAdmin.AdminContract.Add | contract/src/multi_admin.rs:10-17 | an admin adds a name that is not listed yet; every other call changes nothing |
| MultiAdmin.AdminContract.Remove | contract/src/multi_admin.rs:19-23 | an admin filters a name out; a call by anybody else changes nothing |
| MultiAdmin.RunRefinesSet | contract/src/multi_admin.rs:10-23 | under every run the list stays free of duplicates and follows a mathematical set |
| MultiAdmin.UnauthorisedChangesNothing | contract/src/multi_admin.rs:25-37 | a call by somebody who is not listed, or has not authorised it, changes nothing |
| MultiAdmin.WithoutKeepsOrder | contract/src/multi_admin.rs:19-23 | removing a name keeps the others in their order |
| MultiAdmin.EmptyIsAbsorbing | contract/src/multi_admin.rs:25-37 | from no admins, no later call succeeds and nothing changes |
| MultiAdmin.LastAdminLeaves | contract/src/multi_admin.rs:19-23 | a call empties the list if and only if the sole admin removes himself |
| PerObject.AccessContract.GrantObjectAccess | contract/src/per_object.rs:10-18 | an authorised grant sets the pair's entry and its expiry |
| PerObject.AccessContract.RevokeObjectAccess | contract/src/per_object.rs:20-24 | an authorised revoke removes the pair's entry |
| PerObject.AccessContract.CheckObjectAccess | contract/src/per_object.rs:26-37 | access holds for a granted entry whose expiry is absent or not passed |
| PerObject.AccessByLatestCall | contract/src/per_object.rs:10-37 | access holds if and only if the latest call about the pair that its admin argument authorised is a grant whose expiry is absent or not passed |
| PerObject.UnauthorisedChangesNothing | contract/src/per_object.rs:10-24 | a call without the authorisation of its admin argument changes nothing |
| PerObject.DeniedUntilGranted | contract/src/per_object.rs:26-37 | once denied, a pair stays denied at every later ledger until it is granted again |

## Left out

- FileRoundTripExact, NoTruncatedFileAccepted and TruncatedOutputIsPrefix: file lengths whose chunk count is 2^32 or more and falls between 1 and 10000 modulo 2^32 (beyond 16 PiB) are excluded; there the count field no longer describes the file.
- WindowBound and DoubleChargeBound: the limiter's floating-point rounding is not modelled.
- Errors of opening, reading and writing local files, and of the random source.
- The JSON and HTTP layers, body size limits, API keys, TLS, logging, metrics, the share gauge, /health, /status and /sync; a request they turn away is a lost request of the client model.
- A node whose address limiter was never created lets every request through; the rate model starts after its creation, and key ring and store after theirs.
- Internals of AES-GCM, P-256, HKDF, Ed25519, Vault's Shamir, strkey, XDR and BoltDB; transactions either take effect as a whole or not at all, and key order in the bucket is not modelled.
- Data races below the level of whole-variable reads and writes of the node key pair.
- Keys of versions after 0 are not persisted; a run is one process lifetime.
- White space outside ASCII around node addresses.
- The network part of the simulation: its answer is an input, and in `Grants.dfy` the answer of an allowlist contract executing approve.
- `delegate`, `upgrade`, event emission and storage expiry of the contracts.
- `DeriveAESKey`, the object database, the admin client, the SDK stubs.
