/** Optional values, pass/fail outcomes and option-valued map lookup. */
module Wrappers {

  datatype Option<+T> = None | Some(value: T)

  /** The result of an operation that returns only an error (Go's `error`, nil on success). */
  datatype Outcome<+E> = Pass | Fail(error: E)

  /** Looking a key up in a map; a missing key is `None`, never an error. */
  function Get<K, V>(m: map<K, V>, k: K): Option<V>
  {
    if k in m then Some(m[k]) else None
  }

  /** Two maps that answer every lookup alike are the same map. */
  lemma MapsAgree<K, V>(a: map<K, V>, b: map<K, V>)
    requires forall k :: Get(a, k) == Get(b, k)
    ensures a == b
  {
    forall k | k in a ensures k in b && a[k] == b[k] {
      assert Get(a, k) == Get(b, k);
    }
    forall k | k in b ensures k in a {
      assert Get(a, k) == Get(b, k);
    }
  }

  /** The position of the last occurrence of `x` in `s`, if any. */
  function LastIndexOf<T(==)>(s: seq<T>, x: T): (r: Option<nat>)
    ensures r.Some? ==> r.value < |s| && s[r.value] == x
                        && forall i :: r.value < i < |s| ==> s[i] != x
    ensures r.None? <==> x !in s
  {
    if |s| == 0 then None
    else if s[|s| - 1] == x then Some(|s| - 1)
    else LastIndexOf(s[..|s| - 1], x)
  }
}

/**
 * The value types the slasher exchanges with its store: compact attestations,
 * attestation records, double-vote evidence, attested epochs and span chunks.
 * Go's fixed-width integers are newtypes over their exact ranges.
 */
module SlasherTypes {

  newtype u8 = x: int | 0 <= x < 0x100
  newtype u16 = x: int | 0 <= x < 0x1_0000
  newtype u64 = x: int | 0 <= x < 0x1_0000_0000_0000_0000

  type ValidatorIndex = u64
  type Epoch = u64

  /** A 32-byte signing root (`[32]byte`). */
  type Root = r: seq<u8> | |r| == 32 witness seq(32, _ => 0)

  /** The Go composite literal `[32]byte{b}`: `b` followed by 31 zero bytes. */
  function RootOf(b: u8): (r: Root)
    ensures r[0] == b && forall i :: 1 <= i < 32 ==> r[i] == 0
  {
    [b] + seq(31, _ => 0)
  }

  /** An attestation reduced to what slashing detection needs. */
  datatype CompactAttestation = CompactAttestation(
    attestingIndices: seq<u64>,
    source: Epoch,
    target: Epoch,
    signingRoot: Root)

  /** What the store keeps per (validator, target epoch). */
  datatype AttestationRecord = AttestationRecord(
    source: Epoch,
    target: Epoch,
    signingRoot: Root)

  /** Evidence that a validator signed two different attestations for one target epoch. */
  datatype AttesterDoubleVote = AttesterDoubleVote(
    validatorIndex: ValidatorIndex,
    signingRoot: Root,
    prevSigningRoot: Root,
    target: Epoch)

  /** The latest epoch recorded for a validator. */
  datatype AttestedEpochForValidator = AttestedEpochForValidator(
    validatorIndex: ValidatorIndex,
    epoch: Epoch)

  /** The two span arrays of surround-vote detection, each stored in its own partition. */
  datatype SpanKind = MinSpan | MaxSpan

  /** A chunk of span values; its length is chosen by the surround-vote detector, not by the store. */
  type Chunk = seq<u16>

  datatype StoreError =
    /** The chunk keys and the chunks handed to a save are not parallel sequences. */
    InputShapeError
}
