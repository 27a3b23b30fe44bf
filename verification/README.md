# Outbe chain: a verified model of its hard core

This project models parts of the Outbe chain in Dafny and proves what they promise:

- **The TEE enclave.** The resident offer key, its sealing to disk, the distributed key generation sessions, the
  handoff of the key between enclaves, and the offer batch the key decrypts. One request is a function on the enclave's
  state (`EnclaveProtocol`); the objects the enclave mutates are classes proved equal to those functions (`Dkg`,
  `Enclave`); whole connections are request traces (`SessionTraces`); and a network of machines that boot, crash,
  connect, serve, seal and lose blobs is a state machine (`Network`), over whose runs restart stability and agreement
  are proved (`NetworkRuns`, `NetworkAgreement`).
- **The shielded gratis pool.** The padded Merkle tree, the client's proof builder, the chain's incremental frontier and
  root window, and the deposits and spends of the whole pool.
- **secp256k1.** Affine addition and double-and-add over any prime field.
- **The genesis seeder.** Keccak-256, the calendar, P2P address payloads, Solidity `bytes` storage, and the counters and
  indexes of tributes, nods and validators.
- **Smaller codecs and arithmetic.** RLP, decimal amounts, the feeder's averages, the TEE policy hash.

`dafny verify dfyconfig.toml` checks everything.

## Foreign code

Cryptographic primitives, the Commonware DKG library, JSON and text readers, Poseidon and the zero-knowledge verifier are
parameters: fields of a datatype holding functions. What a proof needs of them is an explicit law:

- `ShareCrypto.Lawful`: Diffie-Hellman commutes, and an AEAD opens exactly what it sealed.
- `OfferBatch.SaltsSeparate`, `ShareCrypto.KeyCommits`, `ShareCrypto.GcmCommits`: two given salts derive different keys
  from one shared secret, and a given ciphertext that opens under one given key does not open under the other. Asked only
  of the two openings a result compares, since no AEAD keeps all pairs of keys apart; `LawsAreConsistent` exhibits
  primitives that do so along with `Lawful`.
- `DkgSeams.ThresholdLaw`: every quorum of valid partials of a group recovers the same signature.
- `RepeatedAddition.Associative`, primality of the field and of the group order: hypotheses of the scalar
  multiplication results only.

Random draws, the clock, file system success and the sealing key are parameters of the step that uses them. The network
results that need an honest relay, the registered public key in every ingest, or the absence of AEAD forgeries name those
conditions (`Honest`, `NamesRegistered`, `ForgeryFree`).

## Where the code and its comments disagree

- The MCP server and the Python offer script derive the offer key with a salt of 32 bytes `0x03`
  (`mcp/src/crypto.ts:18`, `scripts/tribute_offer.py:53`) while the enclave and the command line use
  `OFFER_HKDF_SALT` (`crates/system/tee/src/lib.rs:52`), although they are described as identical. `ClientOfferOpens`
  proves that an offer opens if and only if both sides use one salt, given that HKDF derives two keys from the two salts
  and that the enclave's key does not also open what the client sealed under its own. `LegacyOfferIsRejected` carries
  this to the batch: such an offer is reported as undecryptable.
- The tribute and nod seeders count an owner's items by the lower-cased spelling of the address but store them by the
  address itself. With and without the `0x` prefix, one address is counted twice from zero, and its index cells and
  count are overwritten. `OwnersAreRight` proves that the index is right if and only if no address is spelled in two
  ways; `PrefixSplitsOwner` gives the failing input for every address.
- The sealed blob is described as written once and atomically. Two connections can both find no file and then write
  through the same temporary path, where each open empties the file for the other
  (`bin/outbe-tee-enclave/src/transport.rs:98-114`). The model takes the open, the write and the rename as separate steps.
  `SafeWrites` is the condition under which this does no harm: the sealed file is whole, a connection that has yet to
  open the temporary file is the only writer, and whoever is to rename an empty temporary file will fill it first.
  `SchedulesAreSafeExactly` proves, for every state, that all schedules of the writes leave a whole blob or none if and
  only if that holds, and `RunIsSafeExactly` that a run keeps it if and only if connections pass the existence check one
  at a time. `UnsafeWritesLoseTheKey` gives the failing runs from every other state: an empty sealed file, which no boot
  can restore from and which the existence check then keeps from ever being replaced. `BothPassTheCheck` shows how two
  connections get there. `RestartStability` needs the condition in its first state only: once a blob is sealed nobody
  passes the check. `WriteKeepsNodeOk` proves, for all runs, that a sealed file is empty or seals the same key.
- A Merkle proof for a leaf index of 2^20 or more is returned without an error. `BuiltProofVerifies` proves the fold for
  every leaf the tree can hold, and `PastCapacityFails` that over distinct commitments no other leaf's proof folds to the
  root, short of an explicit Poseidon collision.
- The date key is a 32-bit integer: for the last valid key, 31 December 429496, the next key does not fit
  (`NextKeyByTimestamp`).
- The seeder's `MAX_P2P_ADDRESS_ENCODED_LEN` check never rejects anything (`AcceptedExactly`).

## Model

| member | source | states |
|---|---|---|
| `ShareCrypto.EpochInfoSeparates` | bin/outbe-tee-enclave/src/crypto.rs:167-176 | different epochs derive the offer key under different HKDF info strings |
| `ShareCrypto.ShareCodec` | bin/outbe-tee-enclave/src/crypto.rs:189-214 | the sealed-share wire form is decoded exactly from its encoding, and anything under 44 bytes is refused |
| `ShareCrypto.EncryptedShareOpens` | bin/outbe-tee-enclave/src/crypto.rs:226-290 | a share sealed to a public key, sent over the wire, opens for every secret behind that key |
| `ShareCrypto.DeterministicShareOpens` | bin/outbe-tee-enclave/src/crypto.rs:261-290 | the registry seal opens with the same decryption and carries the sender's public key |
| `SealedBlob.FillHeader` | bin/outbe-tee-enclave/src/seal.rs:104-113 | filling the fixed header buffer in place gives the header encoding |
| `SealedBlob.HeaderDecodesEncoded` | bin/outbe-tee-enclave/src/seal.rs:104-136 | every header survives encoding |
| `SealedBlob.HeaderEncodesDecoded` | bin/outbe-tee-enclave/src/seal.rs:115-136 | only encodings are accepted as headers |
| `SealedBlob.PayloadCodec` | bin/outbe-tee-enclave/src/seal.rs:176-206 | payload decoding accepts exactly the encodings |
| `SealedBlob.UnsealInvertsSeal` | bin/outbe-tee-enclave/src/seal.rs:211-287 | unsealing accepts exactly the sealings under that key and chain id whose SVN is not above the running one |
| `SealedBlob.UnsealRefusals` | bin/outbe-tee-enclave/src/seal.rs:243-287 | another format or an SVN above the running one is refused, under any key and chain id |
| `SealedBlob.OtherKeyIsRefused` | bin/outbe-tee-enclave/src/seal.rs:243-287 | a current blob opens exactly under its own key and chain id, and is refused under any other the AEAD keeps apart from them |
| `Dkg.DkgSession.constructor` | bin/outbe-tee-enclave/src/dkg.rs:163-182 | a new session holds a player and neither dealer, share nor output |
| `Dkg.DkgSession.StartDealer` | bin/outbe-tee-enclave/src/dkg.rs:200-232 | the dealing seals one share per recipient in order; session and answer are the seam function's |
| `Dkg.DkgSession.PlayerIngest` | bin/outbe-tee-enclave/src/dkg.rs:238-253 | a share is opened with this session's key and given to the player; a consumed player is an error |
| `Dkg.DkgSession.DealerReceiveAck` | bin/outbe-tee-enclave/src/dkg.rs:257-264 | an acknowledgement reaches the dealer; a missing dealer is an error |
| `Dkg.DkgSession.DealerFinalize` | bin/outbe-tee-enclave/src/dkg.rs:268-275 | finalizing consumes the dealer |
| `Dkg.DkgSession.PlayerFinalize` | bin/outbe-tee-enclave/src/dkg.rs:279-305 | finalizing consumes the player and sets share and output together, or fails |
| `Dkg.DkgSession.OfferPartialsSealed` | bin/outbe-tee-enclave/src/dkg.rs:310-330 | one sealed partial per recipient, in order, without changing the session |
| `Dkg.DkgSession.RecoverOfferSecret` | bin/outbe-tee-enclave/src/dkg.rs:336-367 | the offer key comes from the signature the opened partials recover |
| `CeremonyOrder.OpenIsOrderIndependent` | bin/outbe-tee-enclave/src/transport.rs:578-619 | permuting participants together with their encryption keys opens the same session |
| `CeremonyOrder.PolicyPreimageIsCanonical` | scripts/seed_genesis.py:280-301 | policy preimages are equal exactly when both allowlists are equal as multisets and the minimum SVN is equal |
| `EnclaveProtocol.SlotIsWriteOnce` | bin/outbe-tee-enclave/src/transport.rs:394-454 | a resident key never changes; one that appears derives from its group signature under the request's chain id and epoch |
| `EnclaveProtocol.RepliesNameResidentKey` | bin/outbe-tee-enclave/src/transport.rs:305-576 | every success reply that names an offer key names the resident one, and an ingest also the expected one |
| `EnclaveProtocol.DivergentKeyIsRefused` | bin/outbe-tee-enclave/src/transport.rs:530-568 | divergence is answered exactly when another public key is resident, and then neither slot nor sessions change |
| `EnclaveProtocol.RegistryBlobsAgree` | bin/outbe-tee-enclave/src/transport.rs:369-393 | enclaves with equal resident keys emit the same registry blob for a recipient |
| `Enclave.DkgSessionStore.Open` | bin/outbe-tee-enclave/src/dkg.rs:506-524 | a fresh id is added, a duplicate id refused with the resident session kept |
| `Enclave.DkgSessionStore.Remove` | bin/outbe-tee-enclave/src/dkg.rs:541-543 | exactly the named session is removed |
| `Enclave.TeeDir.UnsealOnBoot` | bin/outbe-tee-enclave/src/transport.rs:120-152 | the boot fast path restores the unsealed key, or nothing on any failure |
| `Enclave.TeeDir.SealIfConfigured` | bin/outbe-tee-enclave/src/transport.rs:160-208 | an existing blob is kept; otherwise the resident key is sealed, and failures leave no blob |
| `Enclave.EnclaveProcess.SetOnce` | bin/outbe-tee-enclave/src/transport.rs:436-445 | setting succeeds only on an empty slot |
| `Enclave.RunSession` | bin/outbe-tee-enclave/src/transport.rs:468-529 | one seam request on one session object is the seam function on its state |
| `Enclave.EnclaveProcess.RunSeam` | bin/outbe-tee-enclave/src/transport.rs:468-529 | a seam request changes only the named session |
| `Enclave.EnclaveProcess.RunOpen` | bin/outbe-tee-enclave/src/transport.rs:578-619 | opening checks lengths, builds the ceremony and adds the session |
| `Enclave.EnclaveProcess.RunIngest` | bin/outbe-tee-enclave/src/transport.rs:394-454 | a handoff is opened, derived, compared and installed once |
| `Enclave.EnclaveProcess.RunRecover` | bin/outbe-tee-enclave/src/transport.rs:530-568 | a recovery installs once, keeps the session on divergence and releases it on success |
| `Enclave.EnclaveProcess.RunQuery` | bin/outbe-tee-enclave/src/transport.rs:312-348 | the reading requests answer from the resident key when there is one |
| `Enclave.EnclaveProcess.RunSeal` | bin/outbe-tee-enclave/src/transport.rs:349-393 | both seal requests need a resident key and seal its group signature |
| `Enclave.EnclaveProcess.Dispatch` | bin/outbe-tee-enclave/src/transport.rs:305-576 | on the mutable objects, every request has exactly the specified effect and answer |
| `SessionTraces.ServeIsLegal` | bin/outbe-tee-enclave/src/transport.rs:455-568 | a session appears only by opening, disappears only with an offer-key reply, and changes only by its own requests |
| `SessionTraces.ResidentIsEarned` | bin/outbe-tee-enclave/src/dkg.rs:498-543 | over any trace, a resident session was opened earlier and its output was finalized exactly once since |
| `SessionTraces.OfferKeyIsEarned` | bin/outbe-tee-enclave/src/dkg.rs:336-367 | an offer-key reply needs an earlier open and one player finalization with no release in between, and releases the session |
| `SessionTraces.SessionsAreSafe` | bin/outbe-tee-enclave/src/dkg.rs:200-367 | share and output are set together, imply a consumed player, are never overwritten, and other ceremonies are untouched |
| `NetworkRuns.WriteKeepsNodeOk` | bin/outbe-tee-enclave/src/transport.rs:98-114 | however writers open, fill and rename the shared temporary file, the sealed file is empty or seals the same record |
| `NetworkRuns.WriteKeepsSafe` | bin/outbe-tee-enclave/src/transport.rs:98-114 | from safe writes, each step of any writer, failing or not, keeps the sealed file whole and the writes safe |
| `NetworkRuns.StepIsSafeExactly` | bin/outbe-tee-enclave/src/transport.rs:160-208 | an event keeps the writes safe if and only if it lets no second connection past the existence check; a sealed file stays until removed |
| `NetworkRuns.NodeStepKeepsOk` | bin/outbe-tee-enclave/src/transport.rs:226-300 | every event keeps: whole files seal what they record, pending writes hold the resident key, the sealed record and the resident key persist |
| `NetworkRuns.RunKeepsOk` | bin/outbe-tee-enclave/src/transport.rs:226-300 | the same over every run |
| `NetworkRuns.RunIsSafeExactly` | bin/outbe-tee-enclave/src/transport.rs:160-208 | a run from safe writes is safe in every state if and only if connections pass the existence check one at a time |
| `NetworkRuns.SealedKeyPersists` | bin/outbe-tee-enclave/src/transport.rs:160-208 | from safe writes, over every run, a blob stays whole and keeps meaning the key it was first sealed for until it is removed |
| `NetworkRuns.ResidentKeyPersists` | bin/outbe-tee-enclave/src/transport.rs:432-445 | a running enclave keeps its key until it stops |
| `NetworkRuns.RestoreGivesSealedKey` | bin/outbe-tee-enclave/src/transport.rs:120-152 | a boot with the same sealing key and chain id and an SVN not below the sealed one restores exactly the sealed key |
| `NetworkRuns.RestartStability` | bin/outbe-tee-enclave/src/run.rs:123-132 | from a sealed blob and safe writes, over any run that does not remove the blob, every matching boot starts with the sealed secret, public key and group signature and keeps them |
| `NetworkSealRace.SchedulesAreSafeExactly` | bin/outbe-tee-enclave/src/transport.rs:168-171 | in any state, every schedule of the pending writes leaves the sealed file whole or absent if and only if the writes are safe |
| `NetworkSealRace.LostForGood` | bin/outbe-tee-enclave/src/transport.rs:168-171 | an empty sealed file is never replaced and no boot restores from it |
| `NetworkSealRace.LosingSchedule` | bin/outbe-tee-enclave/src/transport.rs:98-114 | from any state whose writes are not safe, some schedule of them leaves an empty sealed file |
| `NetworkSealRace.UnsafeWritesLoseTheKey` | bin/outbe-tee-enclave/src/transport.rs:98-114 | after that schedule and a crash, whatever follows, no boot restores the key until the file is removed |
| `NetworkSealRace.BothPassTheCheck` | bin/outbe-tee-enclave/src/transport.rs:276-290 | one request on each of two connections makes the writes unsafe |
| `NetworkAgreement.RestoreIsHonest` | bin/outbe-tee-enclave/src/seal.rs:243-287 | under the sealing key and chain id, a boot restores what the blob records or nothing |
| `NetworkAgreement.FileProvenance` | bin/outbe-tee-enclave/src/transport.rs:98-114 | whatever a file holds after a step, a file held before or is the resident key |
| `NetworkAgreement.KeyProvenance` | bin/outbe-tee-enclave/src/transport.rs:41-71 | a key present after a step was resident, was on disk, or was derived by the request served |
| `NetworkAgreement.KeysStayWellFormed` | bin/outbe-tee-enclave/src/transport.rs:41-71 | in every reachable state each resident key and each key in a file derives from its group signature under its origin's chain id and epoch |
| `NetworkAgreement.RecoveryFixesAccord` | bin/outbe-tee-enclave/src/dkg.rs:336-367 | one valid recovery fixes the group's signature and so the key |
| `NetworkAgreement.OfferedKeyAgrees` | bin/outbe-tee-enclave/src/transport.rs:394-454 | a request that would install a key, when relayed honestly, offers the agreed one; refused requests may hold anything |
| `NetworkAgreement.StepKeepsAgreement` | bin/outbe-tee-enclave/src/transport.rs:349-454 | each event of a network in agreement keeps it in agreement |
| `NetworkAgreement.RunKeepsAgreement` | bin/outbe-tee-enclave/src/transport.rs:349-454 | along any chain of handoffs, registry seals and recoveries, of any length, all keys are the agreed one |
| `NetworkAgreement.OfferedKeyIsRegistered` | bin/outbe-tee-enclave/src/transport.rs:420-425 | an ingest that names the registered public key can only install a key with it, whatever blob, chain id and epoch come along |
| `NetworkAgreement.RunKeepsRegistered` | bin/outbe-tee-enclave/src/transport.rs:394-454 | along any run whose ingests name the registered public key and whose recoveries get the group's partials, every resident and stored public key is the registered one |
| `NetworkAgreement.ReachableKeys` | bin/outbe-tee-enclave/src/run.rs:123-132 | from machines that never ran: well-formed keys in every reachable state, agreement in every honestly relayed one, the registered public key where ingests name it, whole sealed files where connections seal one at a time |
| `NetworkAgreement.HandoffDelivers` | bin/outbe-tee-enclave/src/transport.rs:394-454 | a relayed handoff leaves the newcomer with the agreed key and says so |
| `OfferBatch.ClientOfferOpens` | bin/outbe-tee-enclave/src/crypto.rs:124-146 | an offer opens to its plaintext if and only if client and enclave use one salt, and is refused as undecryptable otherwise |
| `OfferBatch.LegacySaltDiffers` | mcp/src/crypto.ts:18 | the hard-coded client salt is not the protocol's |
| `OfferBatch.LegacyOfferIsRejected` | mcp/src/crypto.ts:18 | an offer made under the hard-coded salt is reported as undecryptable, the protocol salt's key not opening it too |
| `OfferBatch.NominalIsFloor` | bin/outbe-tee-enclave/src/compute.rs:140-145 | the nominal is the one whole number of units the scaled amount pays for, it exists exactly when that amount fits 256 bits, and so for every accepted amount |
| `OfferBatch.ProcessBatch` | bin/outbe-tee-enclave/src/process.rs:39-53 | the loop yields one outcome per offer, in order |
| `OfferBatch.OutcomeIsSound` | bin/outbe-tee-enclave/src/process.rs:55-135 | a created offer has positive amount and price and nominal*price <= amount*10^18 < (nominal+1)*price; a rejected one only zeroed fields |
| `OfferBatch.BatchIsSound` | bin/outbe-tee-enclave/src/process.rs:39-135 | over any batch, sound results, no overflow reject, and concatenation of batches is concatenation of results |
| `Decimal.NormalizeNeverOverflows` | bin/outbe-tee-enclave/src/compute.rs:152-207 | neither overflow error is reachable and the amount times 10^18 fits 256 bits |
| `Decimal.BaseIsExact` | bin/outbe-tee-enclave/src/compute.rs:152-207 | the base part's minor amount is its decimal value times 10^18 |
| `Decimal.NormalizeAccepts` | bin/outbe-tee-enclave/src/compute.rs:152-207 | exactly which strings are accepted |
| `Decimal.NormalizeIsExact` | bin/outbe-tee-enclave/src/compute.rs:152-207 | every accepted plus-free input yields atto plus exactly its decimal value times 10^18 |
| `Decimal.FormatParseRoundTrip` | bin/outbe-cli/src/commands/mod.rs:23-42 | printing then parsing gives the value back exactly when its whole part is below 2^128, else the parser refuses |
| `MerkleProof.MerkleZeros` | examples/credis-flow/src/shielded.ts:151-159 | the loop computes the hash of every empty subtree up to the depth |
| `MerkleProof.PairUp` | examples/credis-flow/src/shielded.ts:195-200 | one pass computes the next level |
| `MerkleProof.Climb` | examples/credis-flow/src/shielded.ts:183-205 | the level loop yields the tree's nodes beside the path, which fold to the leaf's top node, and the first top node as root |
| `MerkleProof.BuildMerkleProof` | examples/credis-flow/src/shielded.ts:170-206 | fails exactly on an index out of range, otherwise returns such a proof |
| `MerkleProof.LevelIsTree` | examples/credis-flow/src/shielded.ts:187-203 | level by level hashing equals the recursive padded tree at every node |
| `MerkleProof.BuiltProofVerifies` | examples/credis-flow/src/shielded.ts:170-206 | the root is the recursive padded root whatever the index; the siblings fold to it if and only if the leaf's top node is the root, so for every leaf the tree can hold |
| `MerkleProof.PastCapacityFails` | examples/credis-flow/src/shielded.ts:170-206 | over distinct commitments, a proof for an index of 2^20 or more folds to the root only with an explicit Poseidon collision |
| `MerkleProof.BuiltRootBinds` | examples/credis-flow/src/shielded.ts:136-138 | any canonical leaf and path that fold to a built root are the real ones, or the two paths hold an explicit Poseidon collision |
| `MerkleTree.OpeningsBind` | examples/credis-flow/src/shielded.ts:136-138 | two openings of one value at one index are equal or hold an explicit node collision |
| `MerkleTree.SpinesBind` | examples/credis-flow/src/shielded.ts:136-138 | two equal nodes over different first leaves hold a node collision on their left spines |
| `MerkleTree.NodeStable` | crates/core/gratispool/src/state.rs:147-167 | a subtree whose leaves are all present never changes |
| `GratisPoolTree.WalkIsTree` | crates/core/gratispool/src/state.rs:147-167 | the incremental walk reaches the padded root and leaves a right frontier at every level |
| `GratisPoolTree.AppendHolds` | crates/core/gratispool/src/state.rs:130-173 | after any append the stored tree is the tree of the whole list and the newest root its padded root |
| `GratisPoolTree.WindowIsRecent` | crates/core/gratispool/src/state.rs:181-211 | the window accepts exactly the nonzero roots of the last thirty appends |
| `GratisPoolTree.ClientRootIsAccepted` | crates/core/gratispool/src/state.rs:195-211 | a client's proof root is the chain's root, and stays accepted until thirty more appends |
| `GratisPool.DepositKeeps` | crates/core/gratispool/src/runtime.rs:75-86 | a deposit keeps every tree exact and all leaves of the pool distinct, and returns the padded root and the leaf's position |
| `GratisPool.SpendKeeps` | crates/core/gratispool/src/runtime.rs:137-192 | an accepted spend uses a fresh nullifier, the recomputed binding and a root its denomination really had |
| `GratisPool.PoolIsSafe` | crates/core/gratispool/src/runtime.rs:75-192 | over every run: trees match deposits, no leaf twice, no nullifier twice, every accepted spend bound to its call and verified against a real root |
| `GratisPool.HonestSpendIsAccepted` | crates/core/gratispool/src/runtime.rs:137-192 | a client whose proof was built fewer than thirty deposits ago and verifies under a fresh nullifier is paid the denomination |
| `GratisPoolContract.Contract.AppendLeaf` | crates/core/gratispool/src/state.rs:130-173 | on the flat storage maps, an append has exactly the specified effect on its denomination and none on the others |
| `GratisPoolContract.Contract.WalkUp` | crates/core/gratispool/src/state.rs:147-167 | the level loop is the incremental walk |
| `GratisPoolContract.Contract.PushRoot` | crates/core/gratispool/src/state.rs:181-188 | the ring advances by one slot |
| `GratisPoolContract.Contract.HasRootInWindow` | crates/core/gratispool/src/state.rs:195-211 | the scan finds a nonzero root exactly when a slot holds it |
| `GratisPoolContract.Contract.VerifyAndSpend` | crates/core/gratispool/src/runtime.rs:137-192 | each refusal in its order, and the nullifier recorded on success |
| `Secp256k1.GeneratorIsOnCurve` | scripts/prepare_network.py:36-41 | the generator satisfies the curve equation modulo the field prime |
| `Secp256k1.SlopeExists` | scripts/prepare_network.py:181-185 | wherever the code inverts, the inverse exists, and the result is the slope of the chord or tangent |
| `Secp256k1.ThirdIsOnCurve` | scripts/prepare_network.py:186-188 | the third intersection, mirrored, satisfies the curve equation |
| `Secp256k1.AddIsClosed` | scripts/prepare_network.py:170-188 | addition of reduced curve points over any prime field never fails and stays on the curve |
| `Secp256k1.AddCommutes` | scripts/prepare_network.py:170-188 | addition commutes, errors included |
| `Secp256k1.AddInverts` | scripts/prepare_network.py:179-180 | every point and its mirror add to infinity |
| `Secp256k1.PointMul` | scripts/prepare_network.py:191-204 | given associativity, double-and-add is repeated addition; its failures are exactly a scalar out of range and a product at infinity |
| `Secp256k1.NeverInfinite` | scripts/prepare_network.py:202-203 | for a base point of prime order no scalar in range reaches infinity |
| `RepeatedAddition.LoopStep` | scripts/prepare_network.py:197-201 | one turn of the loop preserves what is accumulated plus what is left |
| `Calendar.DayRoundTrip` | crates/blockchain/primitives/src/time.rs:105-130 | every day number gives a valid date that converts back to it |
| `Calendar.DateRoundTrip` | crates/blockchain/primitives/src/time.rs:105-130 | every valid date converts to a day number and back |
| `Calendar.NextIsOneDayLater` | crates/blockchain/primitives/src/time.rs:120-130 | the Gregorian successor is one day later |
| `Calendar.CivilSuccessor` | scripts/seed_genesis.py:346-359 | the date of day n+1 is the Gregorian successor of the date of day n |
| `Calendar.KeysIncrease` | scripts/seed_genesis.py:346-359 | later days have larger keys |
| `Calendar.KeysAreDays` | bin/outbe-tee-enclave/src/compute.rs:47-68 | from 1970 on, the enclave's valid keys are exactly the keys of non-negative days, each of exactly one day |
| `Calendar.NextKeyByTimestamp` | crates/blockchain/primitives/src/time.rs:58-80 | advancing a key by a day of seconds gives the next calendar day's key, which fits 32 bits for every key but the last |
| `Keccak.ThetaInPlace` | scripts/seed_genesis.py:77-88 | the column loop is theta |
| `Keccak.RhoPi` | scripts/seed_genesis.py:90-95 | the scatter into the second array is pi after rho |
| `Keccak.ChiInPlace` | scripts/seed_genesis.py:97-102 | the row loop is chi |
| `Keccak.PermuteInPlace` | scripts/seed_genesis.py:74-104 | the in-place permutation is the composition of the step mappings, round by round |
| `KeccakSponge.PaddedLength` | scripts/seed_genesis.py:110-117 | padding gives a positive multiple of 136 bytes |
| `KeccakSponge.UnpadInverts` | scripts/seed_genesis.py:110-117 | padding can be undone for every input length |
| `KeccakSponge.PaddingIsInjective` | scripts/seed_genesis.py:110-117 | different inputs have different paddings |
| `KeccakSponge.XorBlockInPlace` | scripts/seed_genesis.py:121-123 | the lane loop absorbs one block |
| `KeccakSponge.AbsorbInPlace` | scripts/seed_genesis.py:119-124 | the block loop is the recursive sponge |
| `KeccakSponge.Keccak256` | scripts/seed_genesis.py:107-126 | the digest is the recursive sponge's, for every input length |
| `KeccakSponge.DigestHoldsFourLanes` | scripts/seed_genesis.py:126 | the digest is exactly the first four lanes of the absorbed state after permutations of 24 rounds |
| `Rlp.ScalarIsMinimal` | bin/outbe-cli/src/tx.rs:184-214 | a scalar is encoded as its minimal big-endian string whatever its width |
| `Rlp.ScalarsAgree` | bin/outbe-cli/src/tx.rs:184-214 | the 64-bit and 256-bit encoders agree |
| `Rlp.StringRoundTrip` | bin/outbe-cli/src/tx.rs:216-230 | decoding an encoded string gives it back and leaves exactly what followed |
| `Rlp.StringsArePrefixFree` | bin/outbe-cli/src/tx.rs:216-230 | string encodings are prefix-free and injective |
| `Rlp.RlpEncodeList` | bin/outbe-cli/src/tx.rs:232-245 | the list writer appends exactly the list encoding to its buffer |
| `Rlp.ListRoundTrip` | bin/outbe-cli/src/tx.rs:232-251 | decoding an encoded list gives its payload and what followed |
| `Rlp.ItemsRoundTrip` | bin/outbe-cli/src/tx.rs:216-251 | decoding a list payload gives every string in order |
| `Rlp.TxRoundTrip` | bin/outbe-cli/src/tx.rs:145-159 | decoding a written transaction gives its nine fields |
| `Rlp.EncodingDeterminesTx` | bin/outbe-cli/src/tx.rs:145-159 | encodings are equal exactly when the transactions are |
| `Rlp.SigningPayloadDeterminesChain` | bin/outbe-cli/src/tx.rs:115-129 | the signed payload fixes the chain id and the six fields |
| `P2pAddress.AddressRoundTrip` | scripts/seed_genesis.py:475-532 | every accepted address is recovered from its tagged payload, whatever follows |
| `P2pAddress.AcceptedExactly` | scripts/seed_genesis.py:508-532 | a seed is accepted exactly when its ports and host name are valid; the length limit rejects nothing |
| `StorageBytes.StorageBuilder.WriteStorageBytes` | scripts/seed_genesis.py:407-425 | writes exactly the short or long form, other slots unchanged, and fails only past the last slot |
| `StorageBytes.StorageBuilder.WriteChunks` | scripts/seed_genesis.py:421-425 | the chunk loop writes exactly the chunk slots |
| `StorageBytes.BytesRoundTrip` | scripts/seed_genesis.py:407-425 | what was written, short or long, reads back byte for byte |
| `StorageBytes.SeedSurvives` | scripts/seed_genesis.py:407-435 | an accepted P2P address survives encoding and storage |
| `GenesisIndex.TwoSpellings` | scripts/seed_genesis.py:247-251 | an address has exactly two accepted lower-case spellings, with one leading `0x` or none |
| `GenesisIndex.Seed` | scripts/seed_genesis.py:603-668 | the loops compute the item-by-item records, indexes and count slots, and fail exactly on an owner that is no address |
| `GenesisIndex.SeedItems` | scripts/seed_genesis.py:624-655 | the loop over the tributes |
| `GenesisIndex.SeedNods` | scripts/seed_genesis.py:703-767 | the nod seeder computes the item-by-item records, bucket totals, floor prices, owner index and count slots |
| `GenesisIndex.SeedNodItems` | scripts/seed_genesis.py:724-756 | the loop over the nods |
| `GenesisIndex.NodsAreRight` | scripts/seed_genesis.py:745-760 | bucket totals count every bucket's nods and add up to the supply, and a bucket's floor price is its nods' |
| `GenesisIndex.WriteCounts` | scripts/seed_genesis.py:663-665 | the closing loop writes one count per spelling, in first-seen order |
| `GenesisIndex.RecordsAreRight` | scripts/seed_genesis.py:634-639 | each id's record is the last item seeded under it |
| `GenesisIndex.GroupsAreRight` | scripts/seed_genesis.py:641-661 | each day enumerates exactly its tributes in order, with their number and sum, and the counts add up to the supply |
| `GenesisIndex.OwnersAreRight` | scripts/seed_genesis.py:650-665 | owner counts add up to the supply; index and count slots are right if and only if no address is spelled in two ways |
| `GenesisIndex.PrefixSplitsOwner` | scripts/seed_genesis.py:650-665 | for every address, two items spelled with and without the prefix are counted as fewer than two |
| `GenesisIndex.SeedValidators` | scripts/seed_genesis.py:863-877 | the loop computes the validator registry entry by entry |
| `GenesisIndex.ValidatorsAreRight` | scripts/seed_genesis.py:911-917 | the index maps are mutually inverse if and only if the addresses are distinct, and the total staked is the sum of the stakes |
| `Averages.ComputeVwapFixed` | bin/outbe-feeder/src/aggregator.rs:233-279 | no product is dropped and each accumulator is the true sum capped at 2^256-1 |
| `Averages.OrderDoesNotMatter` | bin/outbe-feeder/src/aggregator.rs:233-279 | both results depend only on the multiset of quotes |
| `Averages.AverageIsBetween` | bin/outbe-feeder/src/aggregator.rs:233-279 | without saturation the average lies between the least and greatest price having volume |
| `Averages.AverageIsNotAbove` | bin/outbe-feeder/src/aggregator.rs:233-279 | even when the product sum saturates, the average does not exceed the greatest price having volume |

## Left out

- The Noise handshake, framing and sockets: a connection starts after its handshake. A write to the temporary file is
  one step that writes all bytes or none, and a crash stops the process, not the machine, so unsynced data is not lost.
- Attestation quotes, the batch's attestation tag and inputs hash, and the texts of error messages.
- The Commonware DKG, BLS, X25519, AEAD, HKDF and Poseidon bodies, the zero-knowledge circuit and its verifier.
- Token id derivation from a draft id and JSON parsing: readers passed to the batch.
- Typed and byte-encoded variants of the DKG seams are one function each.
- Parsing of host:port text and of address literals: the model starts from parsed sockets. Host names are bytes.
- Storage slots are kept as pairs of base slot and key, and composite keys as tuples: the hash that combines them is not
  modelled, so slot collisions are outside the model.
- Of a tribute's or nod's stored fields, the records keep owner, group and amount; currency, issuance amount, league and
  gratis load are copied through by the source and left out.
- Ids of tributes and nods are symbolic numbers; that distinct owner and day pairs get distinct ids is the hash's.
- `bytes.fromhex` skips white space; an address with white space inside is rejected by the model.
- Associativity of the curve group and primality of the concrete constants: hypotheses, stated where used.
- The Keccak round constants and rotation offsets are the source's tables; their derivation in the standard is not
  modelled.
- A failed deposit on a full tree leaves its commitment recorded in the model as in the code; the transaction revert
  around it is not modelled.
- The ECDSA signature, and the recovery id arithmetic of a signed transaction.
- Conversion from floating point, outlier filtering and provider fetching in the feeder: averages start from 128-bit
  prices and volumes.
- White space in an address: the byte reader skips it and the integer reader trims it, so some shorter strings pass.
- The validators' public keys, status and P2P slots beside the index maps; validator addresses are already parsed.
- The gratis and promis balance seeders, metadosis, oracle and rewards seeding, and the remaining crates: they would only
  add easy members.
- Secp256k1.PointMul: equals repeated addition under the associativity hypothesis, which is not proved here.
- NetworkRuns.RestartStability: requires that the writes pending in the first state are safe, because from any other
  state it is false (`UnsafeWritesLoseTheKey`).
- NetworkAgreement.RunKeepsAgreement: requires the host to relay handoffs and partials to the enclave they were sealed
  to with the agreed chain id and epoch, because it concludes one secret and one group signature. The enclave itself only
  compares the public key, and for that the handoffs need no honest host (`RunKeepsRegistered`).
- NetworkAgreement.RunKeepsRegistered: requires recoveries to get the agreed group's partials, because a recovery has no
  registered key to compare with.
- NetworkAgreement.KeysStayWellFormed: excludes boots that open a blob under another key or chain id than it was sealed
  under, because the AEAD law alone does not exclude forgeries.
