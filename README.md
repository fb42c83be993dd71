# Slasher store of a beacon-chain client, in Dafny

This project models the persistent store the slasher keeps in the beacon chain's key-value
database (package `kv`). The store has three partitions:

- **attestation records**: one `{source, target, signingRoot}` record per (validator index,
  target epoch), written by `SaveAttestationRecordsForValidators` for every attesting index of
  every `CompactAttestation` in a batch, and read by `AttestationRecordForValidator`;
- **latest attested epochs**: one epoch per validator, written for a list of validators by
  `SaveLatestEpochAttestedForValidators` and read by `LatestEpochAttestedForValidators`;
- **span chunks**: sequences of `uint16` span values keyed by span kind (`MinSpan` or `MaxSpan`)
  and a `uint64` chunk index, written by `SaveSlasherChunks` and read with existence flags by
  `LoadSlasherChunks`.

The store also runs the double-vote check `CheckAttesterDoubleVotes`. It walks a batch of
attestations in order, and within each attestation its attesting indices in order. It reports
an `AttesterDoubleVote` for every validator whose committed record at the same target epoch
has a different signing root. This is the "same target epoch, different data" case of
`is_slashable_attestation_data` in the Ethereum phase0 beacon-chain specification.

Layout:

- `slasher_types.dfy`: module `Wrappers` (`Option`, `Outcome`, option-valued map lookup,
  last occurrence in a sequence) and module `SlasherTypes` (`u8`, `u16` and `u64` as newtypes over
  their exact ranges, 32-byte roots, and the entities `CompactAttestation`, `AttestationRecord`,
  `AttesterDoubleVote`, `AttestedEpochForValidator`, `SpanKind` and `Chunk`).
- `attestation_records.dfy`: module `AttestationRecords`. It defines what a batch save does to
  the records (`SavedRecords`) and which double votes a batch reveals (`DoubleVotes`), with the
  lemmas about both.
- `latest_epochs.dfy`: module `LatestEpochs`. It defines the epoch save (`SetEpochs`) and the
  ordered lookup (`AttestedEpochs`), with their lemmas.
- `slasher_chunks.dfy`: module `SlasherChunks`. It defines the chunk save (`StoreChunks`), the
  partition independence of the two span kinds and the save/load round trip.
- `store.dfy`: module `SlasherStore`. Class `Store` holds the three maps as fields. Its methods
  are the store's operations, written as loops and proved against the functions above. A save
  builds its writes in a local copy and assigns the field once, as one backend transaction.
- `store_scenarios.dfy`: module `SlasherStoreScenarios`. Each test of the store becomes a client
  method. It opens a fresh `Store`, makes the test's calls and returns what it observes. Its
  postconditions are the test's assertions.

Where the store's stated design and its tests disagree, the model follows the tests:

- `LatestEpochAttestedForValidators` returns an ordered list, not a mapping. Entry `i` belongs
  to `indices[i]` when every asked validator has an epoch (slasher_test.go:57-63). Validators
  without a stored epoch are skipped, so an empty store gives an empty list (slasher_test.go:46-48).
- `LoadSlasherChunks` returns plain chunks, not optional ones (slasher_test.go:170). A missing
  chunk is the empty chunk, and its existence flag is false.
- The validator lists are sequences, not sets. Duplicates are allowed, and a later write to a
  key replaces an earlier one.

## Model

| member | source | states |
|---|---|---|
| `SlasherStore.Store.constructor` | beacon-chain/db/kv/slasher_test.go:15 | a new store has no records, no attested epochs and no chunks |
| `SlasherStore.Store.AttestationRecordForValidator` | beacon-chain/db/kv/slasher_test.go:19-21 | returns a record exactly when one is stored for (validator, target), and then the stored one; a miss is `None`, not an error |
| `SlasherStore.Store.SaveAttestationRecordsForValidators` | beacon-chain/db/kv/slasher_test.go:24-32 | the new records are `SavedRecords` of the old records and the batch; the other partitions are unchanged |
| `AttestationRecords.LastWriter` | beacon-chain/db/kv/slasher_test.go:69-82 | gives the last attestation of a batch that names a (validator, target) key, or none when no attestation does |
| `AttestationRecords.SaveIndicesAt` | beacon-chain/db/kv/slasher_test.go:24-31 | saving one attestation writes its record under (index, target) for every index it names and leaves all other keys as they were |
| `AttestationRecords.SavedRecordsAt` | beacon-chain/db/kv/slasher_test.go:69-82 | after a batch save, a key holds the record of the last attestation that names it (last write wins); keys the batch does not name keep their value |
| `AttestationRecords.SaveRetrieve` | beacon-chain/db/kv/slasher_test.go:23-37 | after saving a single-index attestation, the lookup of (index, target) returns a record with the attestation's target, source and signing root |
| `AttestationRecords.SaveOverwrites` | beacon-chain/db/kv/slasher_test.go:24-33 | a second save for the same (validator, target) replaces the first record, so there is one record per key |
| `AttestationRecords.SavedRecordsIdempotent` | beacon-chain/db/kv/slasher_test.go:69-83 | saving the same batch twice leaves the same records as saving it once |
| `SlasherStore.Store.CheckAttesterDoubleVotes` | beacon-chain/db/kv/slasher_test.go:126-128 | returns `DoubleVotes` of the committed records and the batch, and does not change the store |
| `AttestationRecords.IndexVotesMembers` | beacon-chain/db/kv/slasher_test.go:100-112 | within one attestation, a vote is reported exactly for a listed index whose stored record at the target has another root; the vote carries the new root, the stored root and the target |
| `AttestationRecords.DoubleVotesMembers` | beacon-chain/db/kv/slasher_test.go:85-125 | soundness and completeness: a vote is in the result exactly when some attestation of the batch names its validator at its target, and the committed root there differs from the attestation's root, which the vote carries as its new root |
| `AttestationRecords.IndexVotesAppend` | beacon-chain/db/kv/slasher_test.go:100-112 | index order: the votes for indices `a + b` are the votes for `a` followed by those for `b` |
| `AttestationRecords.DoubleVotesAppend` | beacon-chain/db/kv/slasher_test.go:100-125 | attestation order: the votes of batch `a + b` are the votes of `a` followed by those of `b` |
| `AttestationRecords.IndexVotesSingle` | beacon-chain/db/kv/slasher_test.go:100-105 | one index yields one vote `{index, new root, stored root, target}` when the stored root differs, and nothing otherwise |
| `AttestationRecords.NoConflictsNoVotes` | beacon-chain/db/kv/slasher_test.go:85-98 | indices whose stored roots all match the attestation's root, or that have no record, yield no votes |
| `AttestationRecords.NoRecordsNoVotes` | beacon-chain/db/kv/slasher_test.go:126-128 | checking any batch against an empty store reports nothing |
| `AttestationRecords.NoConflictsInBatchNoVotes` | beacon-chain/db/kv/slasher_test.go:85-98 | a batch none of whose (attestation, index) pairs has a differing committed root yields no votes |
| `AttestationRecords.NoVotesAgainstOwnBatch` | beacon-chain/db/kv/slasher_test.go:69-90 | checking a batch right after saving it reports nothing, provided no two of its attestations give one validator different roots at one target |
| `AttestationRecords.SecondRootOneVote` | beacon-chain/db/kv/slasher_test.go:85-105 | with a one-validator attestation committed, checking another root for the same validator and target reports exactly one vote, with the new root as `signingRoot` and the committed root as `prevSigningRoot` |
| `SlasherStore.Store.SaveLatestEpochAttestedForValidators` | beacon-chain/db/kv/slasher_test.go:50-51 | the new epochs are `SetEpochs` of the old ones, the indices and the epoch; the other partitions are unchanged |
| `SlasherStore.Store.LatestEpochAttestedForValidators` | beacon-chain/db/kv/slasher_test.go:53-55 | returns `AttestedEpochs` of the stored epochs and the indices, and does not change the store |
| `LatestEpochs.SetEpochsAt` | beacon-chain/db/kv/slasher_test.go:50-51 | after the save, every listed validator holds the given epoch, with no monotonicity check, and every other validator keeps its epoch |
| `LatestEpochs.AttestedEpochsMembers` | beacon-chain/db/kv/slasher_test.go:53-63 | an entry is returned exactly for an asked validator with a stored epoch, and it carries that epoch; unseen validators are omitted |
| `LatestEpochs.AttestedEpochsAllStored` | beacon-chain/db/kv/slasher_test.go:55-63 | when every asked validator has an epoch, the result has one entry per index and entry `i` is `{indices[i], its epoch}` |
| `LatestEpochs.NothingStoredNoEntries` | beacon-chain/db/kv/slasher_test.go:46-48 | an empty store answers any lookup with no entries |
| `LatestEpochs.SaveThenReadEpochs` | beacon-chain/db/kv/slasher_test.go:50-63 | saving an epoch for a list of validators and reading the same list gives exactly one entry per index, in input order, each with the saved epoch |
| `SlasherStore.Store.SaveSlasherChunks` | beacon-chain/db/kv/slasher_test.go:148-149 | fails with `InputShapeError` exactly when keys and chunks differ in length, and then writes nothing; otherwise the new chunks are `StoreChunks` of the old ones |
| `SlasherStore.Store.LoadSlasherChunks` | beacon-chain/db/kv/slasher_test.go:152-159 | returns one chunk and one flag per key, in key order; the flag says whether (kind, key) is stored, and the chunk is the stored one or empty |
| `SlasherChunks.StoreChunksAt` | beacon-chain/db/kv/slasher_test.go:174-175 | after a save, a key of the saved kind holds the chunk given with its last occurrence; every other key, of either kind, keeps its value |
| `SlasherChunks.OtherKindUntouched` | beacon-chain/db/kv/slasher_test.go:151-159 | saving under one span kind neither adds nor changes a chunk of the other kind |
| `SlasherChunks.SaveThenLoadChunks` | beacon-chain/db/kv/slasher_test.go:161-171 | with distinct keys, every saved key is present under the saved kind and holds exactly the chunk saved with it |
| `SlasherTypes.RootOf` | beacon-chain/db/kv/slasher_test.go:23 | `[32]byte{b}` is `b` followed by 31 zero bytes |
| `SlasherStoreScenarios.AttestationRecordSaveRetrieve` | beacon-chain/db/kv/slasher_test.go:13-38 | lookup before any save is `None`; after saving `{[1], source 4, target 5, root {1}}` the lookup of (1, 5) gives target 5, source 4 and root {1} |
| `SlasherStoreScenarios.LatestEpochsSaveRetrieve` | beacon-chain/db/kv/slasher_test.go:40-64 | the lookup of [1, 2, 3] is empty at first; after saving epoch 5 for them it is `[{1,5}, {2,5}, {3,5}]` |
| `SlasherStoreScenarios.AttesterDoubleVotes` | beacon-chain/db/kv/slasher_test.go:66-129 | against records `{0,1}@3` and `{2,3}@4` with root {1}, the same votes with root {2} give exactly the four double votes for validators 0, 1, 2 and 3, in that order |
| `SlasherStoreScenarios.CommittedAt` | beacon-chain/db/kv/slasher_test.go:69-83 | the first batch commits root {1} for validators 0 and 1 at target 3 and for validators 2 and 3 at target 4 |
| `SlasherStoreScenarios.BothIndicesConflict` | beacon-chain/db/kv/slasher_test.go:100-112 | an attestation of two indices, both in conflict, yields their two votes in index order |
| `SlasherStoreScenarios.TwoAttestationsAllConflicting` | beacon-chain/db/kv/slasher_test.go:100-125 | two attestations of two conflicting indices each yield four votes: the first attestation's in index order, then the second's |
| `SlasherStoreScenarios.NoneUnderOtherKind` | beacon-chain/db/kv/slasher_test.go:151-159 | after saving under MinSpan into an empty store, every flag loaded under MaxSpan is false |
| `SlasherStoreScenarios.AllUnderSameKind` | beacon-chain/db/kv/slasher_test.go:161-187 | loading distinct keys under the kind they were just saved under finds every chunk, equal to the saved one |
| `SlasherStoreScenarios.ZeroChunks` | beacon-chain/db/kv/slasher_test.go:134-145 | the nested fill loops give keys `0..n-1` and `n` chunks of `elemsPerChunk` zeros |
| `SlasherStoreScenarios.SlasherChunkSaveRetrieve` | beacon-chain/db/kv/slasher_test.go:131-188 | after saving 64 chunks under MinSpan, all 64 MaxSpan flags are false, all 64 MinSpan flags are true with equal chunks, and after saving under MaxSpan too, all 64 MaxSpan flags are true with equal chunks |

## Left out

- The store's implementation file in package `kv` is not part of this model. The operations are
  modelled from the behaviour their tests assert and from the store's stated design.
- Backend I/O and decoding errors are not modelled. The bolt database, its buckets, the
  big-endian key layout and the chunk encoding are abstracted to three maps, so reads and record
  saves cannot fail. `SaveSlasherChunks` keeps its one input-shape error.
- `context.Context`, cancellation, and isolation between concurrent callers are not modelled.
  Each method is sequential, and its one final field assignment stands for an atomic batch write.
- The surround-vote min/max span algorithm is not modelled. Only the chunk storage it relies on
  is exercised. `elemsPerChunk` is the caller's choice, and the store does not check chunk length.
- `setupDB` and the `require`/`assert` test helpers are not modelled. A scenario opens a fresh
  `Store`, and its assertions are its postconditions.
- beacon-chain/blockchain/metrics_test.go (epoch metrics over full beacon states) is not part of
  this model. It depends on beacon-state machinery outside the store.
