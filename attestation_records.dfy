/**
 * The attestation-record part of the slasher store, as values: records keyed by
 * (validator index, target epoch), what a batch save does to them, and which
 * double votes a batch reveals against them.
 */
module AttestationRecords {
  import opened Wrappers
  import opened SlasherTypes

  datatype RecordKey = RecordKey(validator: ValidatorIndex, target: Epoch)

  /** At most one record per key: a map. */
  type Records = map<RecordKey, AttestationRecord>

  function RecordOf(att: CompactAttestation): AttestationRecord
  {
    AttestationRecord(att.source, att.target, att.signingRoot)
  }

  /** Saving `att` writes the key `k`. */
  predicate Writes(att: CompactAttestation, k: RecordKey)
  {
    k.target == att.target && k.validator in att.attestingIndices
  }

  // ---------------------------------------------------------------------------
  // Saving a batch

  /** Writes the record of `att` for each of `indices`, in order. */
  function SaveIndices(m: Records, att: CompactAttestation, indices: seq<ValidatorIndex>): Records
  {
    if |indices| == 0 then m
    else SaveIndices(m, att, indices[..|indices| - 1])[RecordKey(indices[|indices| - 1], att.target) := RecordOf(att)]
  }

  /** The records after saving `batch`: attestation by attestation, index by index. */
  function SavedRecords(m: Records, batch: seq<CompactAttestation>): Records
  {
    if |batch| == 0 then m
    else
      var att := batch[|batch| - 1];
      SaveIndices(SavedRecords(m, batch[..|batch| - 1]), att, att.attestingIndices)
  }

  /** The position of the last attestation of `batch` that writes `k`. */
  function LastWriter(batch: seq<CompactAttestation>, k: RecordKey): (r: Option<nat>)
    ensures r.Some? ==> r.value < |batch| && Writes(batch[r.value], k)
                        && forall i :: r.value < i < |batch| ==> !Writes(batch[i], k)
    ensures r.None? ==> forall i :: 0 <= i < |batch| ==> !Writes(batch[i], k)
  {
    if |batch| == 0 then None
    else if Writes(batch[|batch| - 1], k) then Some(|batch| - 1)
    else LastWriter(batch[..|batch| - 1], k)
  }

  lemma {:induction false} SaveIndicesAt(m: Records, att: CompactAttestation, indices: seq<ValidatorIndex>, k: RecordKey)
    ensures Get(SaveIndices(m, att, indices), k)
         == if k.target == att.target && k.validator in indices then Some(RecordOf(att)) else Get(m, k)
  {
    if |indices| > 0 {
      var init := indices[..|indices| - 1];
      SaveIndicesAt(m, att, init, k);
      assert indices == init + [indices[|indices| - 1]];
    }
  }

  /** Last write wins: a key holds the record of the last attestation in the batch that names it,
      and keys the batch does not name keep what they held. */
  lemma {:induction false} SavedRecordsAt(m: Records, batch: seq<CompactAttestation>, k: RecordKey)
    ensures Get(SavedRecords(m, batch), k)
         == match LastWriter(batch, k)
            case Some(i) => Some(RecordOf(batch[i]))
            case None => Get(m, k)
  {
    if |batch| > 0 {
      var init, att := batch[..|batch| - 1], batch[|batch| - 1];
      SaveIndicesAt(SavedRecords(m, init), att, att.attestingIndices, k);
      if !Writes(att, k) {
        SavedRecordsAt(m, init, k);
      }
    }
  }

  /** Saving a single-index attestation and looking its key up gives back its source, target and root. */
  lemma SaveRetrieve(m: Records, att: CompactAttestation)
    requires |att.attestingIndices| == 1
    ensures var r := Get(SavedRecords(m, [att]), RecordKey(att.attestingIndices[0], att.target));
            r.Some? && r.value.target == att.target && r.value.source == att.source
            && r.value.signingRoot == att.signingRoot
  {
    SavedRecordsAt(m, [att], RecordKey(att.attestingIndices[0], att.target));
  }

  /** A second save under the same key replaces the first record: one record per key. */
  lemma SaveOverwrites(m: Records, first: CompactAttestation, second: CompactAttestation, v: ValidatorIndex)
    requires v in first.attestingIndices && v in second.attestingIndices
    requires first.target == second.target
    ensures Get(SavedRecords(SavedRecords(m, [first]), [second]), RecordKey(v, second.target))
         == Some(RecordOf(second))
  {
    SavedRecordsAt(SavedRecords(m, [first]), [second], RecordKey(v, second.target));
  }

  /** Saving the same batch twice leaves the store as saving it once. */
  lemma SavedRecordsIdempotent(m: Records, batch: seq<CompactAttestation>)
    ensures SavedRecords(SavedRecords(m, batch), batch) == SavedRecords(m, batch)
  {
    var once := SavedRecords(m, batch);
    forall k ensures Get(SavedRecords(once, batch), k) == Get(once, k) {
      SavedRecordsAt(once, batch, k);
      SavedRecordsAt(m, batch, k);
    }
    MapsAgree(SavedRecords(once, batch), once);
  }

  // ---------------------------------------------------------------------------
  // Double votes

  /** The committed record for (v, att.target) has a signing root other than att's:
      same target epoch, different data. */
  predicate Conflicts(m: Records, att: CompactAttestation, v: ValidatorIndex)
  {
    RecordKey(v, att.target) in m && m[RecordKey(v, att.target)].signingRoot != att.signingRoot
  }

  /** `vote` is the evidence that validator `vote.validatorIndex` of `att` double voted against `m`. */
  predicate IsDoubleVoteOf(m: Records, att: CompactAttestation, vote: AttesterDoubleVote)
  {
    var k := RecordKey(vote.validatorIndex, att.target);
    vote.validatorIndex in att.attestingIndices
    && k in m
    && vote.target == att.target
    && vote.signingRoot == att.signingRoot
    && vote.prevSigningRoot == m[k].signingRoot
    && vote.prevSigningRoot != vote.signingRoot
  }

  /** The double votes of `att` for the given indices, in index order. */
  function IndexVotes(m: Records, att: CompactAttestation, indices: seq<ValidatorIndex>): seq<AttesterDoubleVote>
  {
    if |indices| == 0 then []
    else
      var v := indices[|indices| - 1];
      IndexVotes(m, att, indices[..|indices| - 1])
      + if Conflicts(m, att, v)
        then [AttesterDoubleVote(v, att.signingRoot, m[RecordKey(v, att.target)].signingRoot, att.target)]
        else []
  }

  /** The double votes of `batch` against the committed records `m`, in attestation order and,
      within an attestation, in index order. */
  function DoubleVotes(m: Records, batch: seq<CompactAttestation>): seq<AttesterDoubleVote>
  {
    if |batch| == 0 then []
    else
      var att := batch[|batch| - 1];
      DoubleVotes(m, batch[..|batch| - 1]) + IndexVotes(m, att, att.attestingIndices)
  }

  lemma {:induction false} IndexVotesMembers(m: Records, att: CompactAttestation, indices: seq<ValidatorIndex>, vote: AttesterDoubleVote)
    requires forall v :: v in indices ==> v in att.attestingIndices
    ensures vote in IndexVotes(m, att, indices) <==> vote.validatorIndex in indices && IsDoubleVoteOf(m, att, vote)
  {
    if |indices| > 0 {
      var init := indices[..|indices| - 1];
      IndexVotesMembers(m, att, init, vote);
      assert indices == init + [indices[|indices| - 1]];
    }
  }

  /** Soundness and completeness of detection: a vote is reported exactly when some attestation of the
      batch names its validator, and the committed record at that attestation's target has another root. */
  lemma {:induction false} DoubleVotesMembers(m: Records, batch: seq<CompactAttestation>, vote: AttesterDoubleVote)
    ensures vote in DoubleVotes(m, batch) <==> exists i :: 0 <= i < |batch| && IsDoubleVoteOf(m, batch[i], vote)
  {
    if |batch| > 0 {
      var init, att := batch[..|batch| - 1], batch[|batch| - 1];
      DoubleVotesMembers(m, init, vote);
      IndexVotesMembers(m, att, att.attestingIndices, vote);
      if exists i :: 0 <= i < |batch| && IsDoubleVoteOf(m, batch[i], vote) {
        var i :| 0 <= i < |batch| && IsDoubleVoteOf(m, batch[i], vote);
        if i < |init| {
          assert init[i] == batch[i];
        }
      }
    }
  }

  /** Index order: the votes for the indices `a + b` are those for `a` followed by those for `b`. */
  lemma {:induction false} IndexVotesAppend(m: Records, att: CompactAttestation, a: seq<ValidatorIndex>, b: seq<ValidatorIndex>)
    ensures IndexVotes(m, att, a + b) == IndexVotes(m, att, a) + IndexVotes(m, att, b)
  {
    if |b| > 0 {
      var init := b[..|b| - 1];
      IndexVotesAppend(m, att, a, init);
      assert (a + b)[..|a + b| - 1] == a + init;
    } else {
      assert a + b == a;
    }
  }

  /** Attestation order: the votes of the batch `a + b` are those of `a` followed by those of `b`. */
  lemma {:induction false} DoubleVotesAppend(m: Records, a: seq<CompactAttestation>, b: seq<CompactAttestation>)
    ensures DoubleVotes(m, a + b) == DoubleVotes(m, a) + DoubleVotes(m, b)
  {
    if |b| > 0 {
      var init := b[..|b| - 1];
      DoubleVotesAppend(m, a, init);
      assert (a + b)[..|a + b| - 1] == a + init;
    } else {
      assert a + b == a;
    }
  }

  /** A single index contributes at most one vote, carrying the new root, the stored root and the target. */
  lemma IndexVotesSingle(m: Records, att: CompactAttestation, v: ValidatorIndex)
    ensures IndexVotes(m, att, [v])
         == if Conflicts(m, att, v)
            then [AttesterDoubleVote(v, att.signingRoot, m[RecordKey(v, att.target)].signingRoot, att.target)]
            else []
  {
    assert [v][..0] == [];
  }

  /** Indices whose committed roots all agree with the attestation's yield no votes. */
  lemma {:induction false} NoConflictsNoVotes(m: Records, att: CompactAttestation, indices: seq<ValidatorIndex>)
    requires forall v :: v in indices ==> !Conflicts(m, att, v)
    ensures IndexVotes(m, att, indices) == []
  {
    if |indices| > 0 {
      NoConflictsNoVotes(m, att, indices[..|indices| - 1]);
    }
  }

  /** Nothing committed, nothing to report. */
  lemma {:induction false} NoRecordsNoVotes(batch: seq<CompactAttestation>)
    ensures DoubleVotes(map[], batch) == []
  {
    if |batch| > 0 {
      var att := batch[|batch| - 1];
      NoRecordsNoVotes(batch[..|batch| - 1]);
      NoConflictsNoVotes(map[], att, att.attestingIndices);
    }
  }

  /** No two attestations of the batch give one validator different roots at one target. */
  predicate ConsistentBatch(batch: seq<CompactAttestation>)
  {
    forall i, j, v :: 0 <= i < |batch| && 0 <= j < |batch|
      && v in batch[i].attestingIndices && v in batch[j].attestingIndices && batch[i].target == batch[j].target
      ==> batch[i].signingRoot == batch[j].signingRoot
  }

  /** A batch none of whose (attestation, index) pairs conflicts yields no votes. */
  lemma {:induction false} NoConflictsInBatchNoVotes(m: Records, batch: seq<CompactAttestation>)
    requires forall i, v :: 0 <= i < |batch| && v in batch[i].attestingIndices ==> !Conflicts(m, batch[i], v)
    ensures DoubleVotes(m, batch) == []
  {
    if |batch| > 0 {
      var init, att := batch[..|batch| - 1], batch[|batch| - 1];
      assert forall i :: 0 <= i < |init| ==> init[i] == batch[i];
      NoConflictsInBatchNoVotes(m, init);
      NoConflictsNoVotes(m, att, att.attestingIndices);
    }
  }

  /** Checking a consistent batch against the store it was just saved into reports nothing. */
  lemma NoVotesAgainstOwnBatch(m: Records, batch: seq<CompactAttestation>)
    requires ConsistentBatch(batch)
    ensures DoubleVotes(SavedRecords(m, batch), batch) == []
  {
    var saved := SavedRecords(m, batch);
    forall i, v | 0 <= i < |batch| && v in batch[i].attestingIndices ensures !Conflicts(saved, batch[i], v) {
      SavedRecordsAt(m, batch, RecordKey(v, batch[i].target));
    }
    NoConflictsInBatchNoVotes(saved, batch);
  }

  /** With `first` committed, checking `second` for the same validator and target but another root
      reports exactly one vote: the second root as new, the first as previous. */
  lemma SecondRootOneVote(m: Records, first: CompactAttestation, second: CompactAttestation)
    requires |first.attestingIndices| == 1 && second.attestingIndices == first.attestingIndices
    requires first.target == second.target && first.signingRoot != second.signingRoot
    ensures DoubleVotes(SavedRecords(m, [first]), [second])
         == [AttesterDoubleVote(first.attestingIndices[0], second.signingRoot, first.signingRoot, first.target)]
  {
    var v := first.attestingIndices[0];
    SavedRecordsAt(m, [first], RecordKey(v, first.target));
    assert second.attestingIndices == [v];
    IndexVotesSingle(SavedRecords(m, [first]), second, v);
    assert [second][..0] == [];
  }
}
