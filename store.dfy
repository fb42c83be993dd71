/**
 * The slasher's persistent store: attestation records, latest attested epochs and span
 * chunks, each in its own partition. A save builds its writes in a local copy and commits
 * them with one assignment, as a backend transaction would; reads never change the store.
 */
module SlasherStore {
  import opened Wrappers
  import opened SlasherTypes
  import opened AttestationRecords
  import opened LatestEpochs
  import opened SlasherChunks

  class Store {
    var records: Records
    var attestedEpochs: Epochs
    var chunks: Chunks

    /** A new, empty store. */
    constructor ()
      ensures records == map[] && attestedEpochs == map[] && chunks == map[]
    {
      records, attestedEpochs, chunks := map[], map[], map[];
    }

    /** The record saved for (validator, target), or none; absence is not an error. */
    method AttestationRecordForValidator(validator: ValidatorIndex, target: Epoch)
      returns (r: Option<AttestationRecord>)
      ensures r.Some? <==> RecordKey(validator, target) in records
      ensures r.Some? ==> r.value == records[RecordKey(validator, target)]
    {
      var k := RecordKey(validator, target);
      if k in records {
        r := Some(records[k]);
      } else {
        r := None;
      }
    }

    /** Saves, for every attestation of the batch and every index it names, the attestation's
        record under (index, target); later writes to a key replace earlier ones. */
    method SaveAttestationRecordsForValidators(batch: seq<CompactAttestation>)
      modifies this`records
      ensures records == SavedRecords(old(records), batch)
    {
      var m := records;
      var i := 0;
      while i < |batch|
        invariant 0 <= i <= |batch|
        invariant m == SavedRecords(old(records), batch[..i])
      {
        var att := batch[i];
        ghost var before := m;
        var j := 0;
        while j < |att.attestingIndices|
          invariant 0 <= j <= |att.attestingIndices|
          invariant m == SaveIndices(before, att, att.attestingIndices[..j])
        {
          m := m[RecordKey(att.attestingIndices[j], att.target) := RecordOf(att)];
          assert att.attestingIndices[..j + 1][..j] == att.attestingIndices[..j];
          j := j + 1;
        }
        assert att.attestingIndices[..j] == att.attestingIndices;
        assert batch[..i + 1][..i] == batch[..i];
        i := i + 1;
      }
      assert batch[..i] == batch;
      records := m;
    }

    /** The double votes the batch reveals against the committed records, in attestation order
        and then index order; the store is only read. */
    method CheckAttesterDoubleVotes(batch: seq<CompactAttestation>)
      returns (votes: seq<AttesterDoubleVote>)
      ensures votes == DoubleVotes(records, batch)
    {
      votes := [];
      var i := 0;
      while i < |batch|
        invariant 0 <= i <= |batch|
        invariant votes == DoubleVotes(records, batch[..i])
      {
        var att := batch[i];
        ghost var before := votes;
        var j := 0;
        while j < |att.attestingIndices|
          invariant 0 <= j <= |att.attestingIndices|
          invariant votes == before + IndexVotes(records, att, att.attestingIndices[..j])
        {
          var v := att.attestingIndices[j];
          var k := RecordKey(v, att.target);
          if k in records && records[k].signingRoot != att.signingRoot {
            votes := votes + [AttesterDoubleVote(v, att.signingRoot, records[k].signingRoot, att.target)];
          }
          assert att.attestingIndices[..j + 1][..j] == att.attestingIndices[..j];
          j := j + 1;
        }
        assert att.attestingIndices[..j] == att.attestingIndices;
        assert batch[..i + 1][..i] == batch[..i];
        i := i + 1;
      }
      assert batch[..i] == batch;
    }

    /** The stored epochs of the given validators, in the order given, skipping validators
        with nothing stored. */
    method LatestEpochAttestedForValidators(indices: seq<ValidatorIndex>)
      returns (r: seq<AttestedEpochForValidator>)
      ensures r == AttestedEpochs(attestedEpochs, indices)
    {
      r := [];
      var i := 0;
      while i < |indices|
        invariant 0 <= i <= |indices|
        invariant r == AttestedEpochs(attestedEpochs, indices[..i])
      {
        var v := indices[i];
        if v in attestedEpochs {
          r := r + [AttestedEpochForValidator(v, attestedEpochs[v])];
        }
        assert indices[..i + 1][..i] == indices[..i];
        i := i + 1;
      }
      assert indices[..i] == indices;
    }

    /** Stores the same epoch for every given validator, overwriting what was there. */
    method SaveLatestEpochAttestedForValidators(indices: seq<ValidatorIndex>, epoch: Epoch)
      modifies this`attestedEpochs
      ensures attestedEpochs == SetEpochs(old(attestedEpochs), indices, epoch)
    {
      var m := attestedEpochs;
      var i := 0;
      while i < |indices|
        invariant 0 <= i <= |indices|
        invariant m == SetEpochs(old(attestedEpochs), indices[..i], epoch)
      {
        m := m[indices[i] := epoch];
        assert indices[..i + 1][..i] == indices[..i];
        i := i + 1;
      }
      assert indices[..i] == indices;
      attestedEpochs := m;
    }

    /** Saves chunks[i] under (kind, keys[i]) for every i; fails without writing anything when
        the two sequences are not parallel. */
    method SaveSlasherChunks(kind: SpanKind, keys: seq<u64>, newChunks: seq<Chunk>)
      returns (result: Outcome<StoreError>)
      modifies this`chunks
      ensures result.Fail? <==> |keys| != |newChunks|
      ensures result.Fail? ==> result.error == InputShapeError
      ensures result.Fail? ==> chunks == old(chunks)
      ensures result.Pass? ==> |keys| == |newChunks| && chunks == StoreChunks(old(chunks), kind, keys, newChunks)
    {
      if |keys| != |newChunks| {
        return Fail(InputShapeError);
      }
      var m := chunks;
      var i := 0;
      while i < |keys|
        invariant 0 <= i <= |keys|
        invariant m == StoreChunks(old(chunks), kind, keys[..i], newChunks[..i])
      {
        m := m[ChunkKey(kind, keys[i]) := newChunks[i]];
        assert keys[..i + 1][..i] == keys[..i];
        assert newChunks[..i + 1][..i] == newChunks[..i];
        i := i + 1;
      }
      assert keys[..i] == keys && newChunks[..i] == newChunks;
      chunks := m;
      result := Pass;
    }

    /** For every key, in order, the chunk stored under (kind, key) and whether one was stored;
        a missing chunk reads as the empty chunk with its flag false. */
    method LoadSlasherChunks(kind: SpanKind, keys: seq<u64>)
      returns (loaded: seq<Chunk>, exist: seq<bool>)
      ensures |loaded| == |keys| && |exist| == |keys|
      ensures forall i :: 0 <= i < |keys| ==> exist[i] == (ChunkKey(kind, keys[i]) in chunks)
      ensures forall i :: 0 <= i < |keys| ==>
                loaded[i] == if exist[i] then chunks[ChunkKey(kind, keys[i])] else []
    {
      loaded, exist := [], [];
      var i := 0;
      while i < |keys|
        invariant 0 <= i <= |keys|
        invariant |loaded| == i && |exist| == i
        invariant forall j :: 0 <= j < i ==> exist[j] == (ChunkKey(kind, keys[j]) in chunks)
        invariant forall j :: 0 <= j < i ==> loaded[j] == ChunkOrEmpty(chunks, ChunkKey(kind, keys[j]))
      {
        var k := ChunkKey(kind, keys[i]);
        if k in chunks {
          loaded, exist := loaded + [chunks[k]], exist + [true];
        } else {
          loaded, exist := loaded + [[]], exist + [false];
        }
        i := i + 1;
      }
    }
  }
}
