/**
 * The latest-attested-epoch part of the slasher store, as values: one epoch per validator,
 * set for a whole list of validators at once and read back in the order asked.
 */
module LatestEpochs {
  import opened Wrappers
  import opened SlasherTypes

  type Epochs = map<ValidatorIndex, Epoch>

  /** Stores `epoch` for each of `indices`, in order; no monotonicity is enforced. */
  function SetEpochs(m: Epochs, indices: seq<ValidatorIndex>, epoch: Epoch): Epochs
  {
    if |indices| == 0 then m
    else SetEpochs(m, indices[..|indices| - 1], epoch)[indices[|indices| - 1] := epoch]
  }

  /** One entry per index that has a stored epoch, in the order of `indices`;
      validators with nothing stored are left out. */
  function AttestedEpochs(m: Epochs, indices: seq<ValidatorIndex>): seq<AttestedEpochForValidator>
  {
    if |indices| == 0 then []
    else
      var v := indices[|indices| - 1];
      AttestedEpochs(m, indices[..|indices| - 1])
      + if v in m then [AttestedEpochForValidator(v, m[v])] else []
  }

  /** After the save, every saved validator holds `epoch` and every other one keeps its value. */
  lemma {:induction false} SetEpochsAt(m: Epochs, indices: seq<ValidatorIndex>, epoch: Epoch, v: ValidatorIndex)
    ensures Get(SetEpochs(m, indices, epoch), v) == if v in indices then Some(epoch) else Get(m, v)
  {
    if |indices| > 0 {
      var init := indices[..|indices| - 1];
      SetEpochsAt(m, init, epoch, v);
      assert indices == init + [indices[|indices| - 1]];
    }
  }

  /** An entry is returned exactly for an asked validator that has a stored epoch, and carries that epoch. */
  lemma {:induction false} AttestedEpochsMembers(m: Epochs, indices: seq<ValidatorIndex>, e: AttestedEpochForValidator)
    ensures e in AttestedEpochs(m, indices)
        <==> e.validatorIndex in indices && e.validatorIndex in m && e.epoch == m[e.validatorIndex]
  {
    if |indices| > 0 {
      var init := indices[..|indices| - 1];
      AttestedEpochsMembers(m, init, e);
      assert indices == init + [indices[|indices| - 1]];
    }
  }

  /** When every asked validator has a stored epoch, entry i is validator indices[i] with its epoch. */
  lemma {:induction false} AttestedEpochsAllStored(m: Epochs, indices: seq<ValidatorIndex>)
    requires forall v :: v in indices ==> v in m
    ensures var r := AttestedEpochs(m, indices);
            |r| == |indices|
            && forall i :: 0 <= i < |indices| ==> r[i] == AttestedEpochForValidator(indices[i], m[indices[i]])
  {
    if |indices| > 0 {
      AttestedEpochsAllStored(m, indices[..|indices| - 1]);
    }
  }

  /** An empty store answers with no entries. */
  lemma {:induction false} NothingStoredNoEntries(indices: seq<ValidatorIndex>)
    ensures AttestedEpochs(map[], indices) == []
  {
    if |indices| > 0 {
      NothingStoredNoEntries(indices[..|indices| - 1]);
    }
  }

  /** Saving an epoch for some validators and reading them back gives one entry per validator,
      in the order given, each with the saved epoch. */
  lemma SaveThenReadEpochs(m: Epochs, indices: seq<ValidatorIndex>, epoch: Epoch)
    ensures var r := AttestedEpochs(SetEpochs(m, indices, epoch), indices);
            |r| == |indices|
            && forall i :: 0 <= i < |indices| ==> r[i] == AttestedEpochForValidator(indices[i], epoch)
  {
    var saved := SetEpochs(m, indices, epoch);
    forall v | v in indices ensures v in saved && saved[v] == epoch {
      SetEpochsAt(m, indices, epoch, v);
    }
    AttestedEpochsAllStored(saved, indices);
  }
}
