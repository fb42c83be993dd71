/**
 * The store's test scenarios as clients of `SlasherStore.Store`: each method opens a fresh
 * store, makes the scenario's calls and returns what it observes; its postconditions are
 * the scenario's assertions, proved from the store's contracts and the lemmas about them.
 */
module SlasherStoreScenarios {
  import opened Wrappers
  import opened SlasherTypes
  import opened AttestationRecords
  import opened LatestEpochs
  import opened SlasherChunks
  import opened SlasherStore

  /** Looking up (1, 5) finds nothing; after saving a one-validator attestation with source 4,
      target 5 and root {1}, the lookup returns those three values. */
  method AttestationRecordSaveRetrieve() returns (before: Option<AttestationRecord>, after: Option<AttestationRecord>)
    ensures before == None
    ensures after.Some? && after.value.target == 5 && after.value.source == 4
            && after.value.signingRoot == RootOf(1)
  {
    var db := new Store();
    before := db.AttestationRecordForValidator(1, 5);
    var att := CompactAttestation([1], 4, 5, RootOf(1));
    db.SaveAttestationRecordsForValidators([att]);
    SaveRetrieve(map[], att);
    after := db.AttestationRecordForValidator(1, 5);
  }

  /** Before any save the lookup of validators 1, 2, 3 is empty; after saving epoch 5 for them
      it returns one entry per validator, in order, each with epoch 5. */
  method LatestEpochsSaveRetrieve() returns (before: seq<AttestedEpochForValidator>, after: seq<AttestedEpochForValidator>)
    ensures before == []
    ensures |after| == 3
    ensures forall i :: 0 <= i < 3 ==> after[i] == AttestedEpochForValidator([1, 2, 3][i], 5)
  {
    var db := new Store();
    var indices: seq<ValidatorIndex> := [1, 2, 3];
    before := db.LatestEpochAttestedForValidators(indices);
    NothingStoredNoEntries(indices);
    db.SaveLatestEpochAttestedForValidators(indices, 5);
    after := db.LatestEpochAttestedForValidators(indices);
    SaveThenReadEpochs(map[], indices, 5);
  }

  /** Validators 0, 1 at target 3 and 2, 3 at target 4 are committed with root {1}; checking the
      same votes signed with root {2} reports all four validators, in that order. */
  method AttesterDoubleVotes() returns (votes: seq<AttesterDoubleVote>)
    ensures votes == [
      AttesterDoubleVote(0, RootOf(2), RootOf(1), 3),
      AttesterDoubleVote(1, RootOf(2), RootOf(1), 3),
      AttesterDoubleVote(2, RootOf(2), RootOf(1), 4),
      AttesterDoubleVote(3, RootOf(2), RootOf(1), 4)]
  {
    var db := new Store();
    var saved := [CompactAttestation([0, 1], 2, 3, RootOf(1)), CompactAttestation([2, 3], 3, 4, RootOf(1))];
    db.SaveAttestationRecordsForValidators(saved);
    var first, second := CompactAttestation([0, 1], 2, 3, RootOf(2)), CompactAttestation([2, 3], 3, 4, RootOf(2));
    votes := db.CheckAttesterDoubleVotes([first, second]);

    var committed := SavedRecords(map[], saved);
    assert RootOf(1) != RootOf(2) by { assert RootOf(1)[0] != RootOf(2)[0]; }
    CommittedAt(saved, 0, 3);
    CommittedAt(saved, 1, 3);
    CommittedAt(saved, 2, 4);
    CommittedAt(saved, 3, 4);
    TwoAttestationsAllConflicting(committed, first, second);
  }

  /** Two attestations of two indices each, every index conflicting, yield four votes: those of
      the first attestation in index order, then those of the second. */
  lemma TwoAttestationsAllConflicting(m: Records, first: CompactAttestation, second: CompactAttestation)
    requires |first.attestingIndices| == 2 && |second.attestingIndices| == 2
    requires Conflicts(m, first, first.attestingIndices[0]) && Conflicts(m, first, first.attestingIndices[1])
    requires Conflicts(m, second, second.attestingIndices[0]) && Conflicts(m, second, second.attestingIndices[1])
    ensures var a, b := first.attestingIndices, second.attestingIndices;
            DoubleVotes(m, [first, second]) == [
              AttesterDoubleVote(a[0], first.signingRoot, m[RecordKey(a[0], first.target)].signingRoot, first.target),
              AttesterDoubleVote(a[1], first.signingRoot, m[RecordKey(a[1], first.target)].signingRoot, first.target),
              AttesterDoubleVote(b[0], second.signingRoot, m[RecordKey(b[0], second.target)].signingRoot, second.target),
              AttesterDoubleVote(b[1], second.signingRoot, m[RecordKey(b[1], second.target)].signingRoot, second.target)]
  {
    BothIndicesConflict(m, first, first.attestingIndices[0], first.attestingIndices[1]);
    BothIndicesConflict(m, second, second.attestingIndices[0], second.attestingIndices[1]);
    DoubleVotesAppend(m, [first], [second]);
    assert [first, second] == [first] + [second];
    assert [first][..0] == [] && [second][..0] == [];
  }

  /** The saved batch commits root {1} for validators 0, 1 at target 3 and 2, 3 at target 4. */
  lemma CommittedAt(saved: seq<CompactAttestation>, v: ValidatorIndex, target: Epoch)
    requires saved == [CompactAttestation([0, 1], 2, 3, RootOf(1)), CompactAttestation([2, 3], 3, 4, RootOf(1))]
    requires (v < 2 && target == 3) || (2 <= v < 4 && target == 4)
    ensures var committed := SavedRecords(map[], saved);
            RecordKey(v, target) in committed && committed[RecordKey(v, target)].signingRoot == RootOf(1)
  {
    SavedRecordsAt(map[], saved, RecordKey(v, target));
  }

  /** An attestation of two indices, both conflicting, yields their two votes in index order. */
  lemma BothIndicesConflict(m: Records, att: CompactAttestation, a: ValidatorIndex, b: ValidatorIndex)
    requires att.attestingIndices == [a, b]
    requires Conflicts(m, att, a) && Conflicts(m, att, b)
    ensures IndexVotes(m, att, [a, b]) == [
      AttesterDoubleVote(a, att.signingRoot, m[RecordKey(a, att.target)].signingRoot, att.target),
      AttesterDoubleVote(b, att.signingRoot, m[RecordKey(b, att.target)].signingRoot, att.target)]
  {
    assert [a, b] == [a] + [b];
    IndexVotesAppend(m, att, [a], [b]);
    IndexVotesSingle(m, att, a);
    IndexVotesSingle(m, att, b);
  }

  /** Builds `totalChunks` chunk keys 0, 1, ... and as many chunks of `elemsPerChunk` zeros,
      filling each chunk in place. */
  method ZeroChunks(totalChunks: nat, elemsPerChunk: nat) returns (keys: seq<u64>, chunks: seq<Chunk>)
    requires totalChunks <= 0x1_0000_0000_0000_0000
    ensures |keys| == totalChunks && |chunks| == totalChunks
    ensures forall i :: 0 <= i < totalChunks ==> keys[i] as int == i
    ensures forall i :: 0 <= i < totalChunks ==>
              |chunks[i]| == elemsPerChunk && forall j :: 0 <= j < elemsPerChunk ==> chunks[i][j] == 0
  {
    var keyArray := new u64[totalChunks];
    var chunkArray := new Chunk[totalChunks];
    for i := 0 to totalChunks
      invariant forall a :: 0 <= a < i ==> keyArray[a] as int == a
      invariant forall a :: 0 <= a < i ==>
                  |chunkArray[a]| == elemsPerChunk && forall j :: 0 <= j < elemsPerChunk ==> chunkArray[a][j] == 0
    {
      var chunk := new u16[elemsPerChunk];
      for j := 0 to elemsPerChunk
        modifies chunk
        invariant forall b :: 0 <= b < j ==> chunk[b] == 0
      {
        chunk[j] := 0;
      }
      chunkArray[i] := chunk[..];
      keyArray[i] := i as u64;
    }
    keys, chunks := keyArray[..], chunkArray[..];
  }

  /** 64 zero chunks of 16 elements are saved under MinSpan for keys 0..63. Loading them under
      MaxSpan finds none; loading under MinSpan finds all, equal to the saved ones; after saving
      them under MaxSpan too, loading under MaxSpan finds all of them. */
  method SlasherChunkSaveRetrieve()
    returns (chunks: seq<Chunk>, maxExistBefore: seq<bool>,
             minLoaded: seq<Chunk>, minExist: seq<bool>,
             maxLoaded: seq<Chunk>, maxExist: seq<bool>)
    ensures |chunks| == 64
    ensures |maxExistBefore| == 64 && forall i :: 0 <= i < 64 ==> !maxExistBefore[i]
    ensures |minLoaded| == 64 && |minExist| == 64
    ensures forall i :: 0 <= i < 64 ==> minExist[i] && minLoaded[i] == chunks[i]
    ensures |maxLoaded| == 64 && |maxExist| == 64
    ensures forall i :: 0 <= i < 64 ==> maxExist[i] && maxLoaded[i] == chunks[i]
  {
    var db := new Store();
    var keys;
    keys, chunks := ZeroChunks(64, 16);
    assert distinct: forall a, b :: 0 <= a < b < |keys| ==> keys[a] != keys[b] by {
      forall a, b | 0 <= a < b < |keys| ensures keys[a] != keys[b] {
        assert keys[a] as int == a && keys[b] as int == b;
      }
    }

    var saved := db.SaveSlasherChunks(MinSpan, keys, chunks);
    var afterMin := db.chunks;

    var ignored;
    ignored, maxExistBefore := db.LoadSlasherChunks(MaxSpan, keys);
    NoneUnderOtherKind(keys, chunks, maxExistBefore);

    minLoaded, minExist := db.LoadSlasherChunks(MinSpan, keys);
    AllUnderSameKind(map[], MinSpan, keys, chunks, minLoaded, minExist);

    saved := db.SaveSlasherChunks(MaxSpan, keys, chunks);
    maxLoaded, maxExist := db.LoadSlasherChunks(MaxSpan, keys);
    AllUnderSameKind(afterMin, MaxSpan, keys, chunks, maxLoaded, maxExist);
  }

  /** Flags loaded under MaxSpan after a save under MinSpan into an empty store are all false. */
  lemma NoneUnderOtherKind(keys: seq<u64>, chunks: seq<Chunk>, exist: seq<bool>)
    requires |keys| == |chunks| && |exist| == |keys|
    requires forall i :: 0 <= i < |keys| ==>
               exist[i] == (ChunkKey(MaxSpan, keys[i]) in StoreChunks(map[], MinSpan, keys, chunks))
    ensures forall i :: 0 <= i < |keys| ==> !exist[i]
  {
    forall i | 0 <= i < |keys| ensures !exist[i] {
      OtherKindUntouched(map[], MinSpan, keys, chunks, MaxSpan, keys[i]);
    }
  }

  /** Loading distinct keys under the kind they were just saved under finds every chunk, unchanged. */
  lemma AllUnderSameKind(m: Chunks, kind: SpanKind, keys: seq<u64>, chunks: seq<Chunk>, loaded: seq<Chunk>, exist: seq<bool>)
    requires |keys| == |chunks| && |loaded| == |keys| && |exist| == |keys|
    requires forall a, b :: 0 <= a < b < |keys| ==> keys[a] != keys[b]
    requires var saved := StoreChunks(m, kind, keys, chunks);
             forall i :: 0 <= i < |keys| ==>
               exist[i] == (ChunkKey(kind, keys[i]) in saved)
               && loaded[i] == if exist[i] then saved[ChunkKey(kind, keys[i])] else []
    ensures forall i :: 0 <= i < |keys| ==> exist[i] && loaded[i] == chunks[i]
  {
    forall i | 0 <= i < |keys| ensures exist[i] && loaded[i] == chunks[i] {
      SaveThenLoadChunks(m, kind, keys, chunks, i);
    }
  }
}
