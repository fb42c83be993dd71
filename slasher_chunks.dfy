/**
 * The span-chunk part of the slasher store, as values: chunks keyed by span kind and chunk
 * index, where the two span kinds are separate partitions of one key space.
 */
module SlasherChunks {
  import opened Wrappers
  import opened SlasherTypes

  datatype ChunkKey = ChunkKey(kind: SpanKind, index: u64)

  type Chunks = map<ChunkKey, Chunk>

  /** Writes `chunks[i]` in full under (kind, keys[i]) for each i, in order. */
  function StoreChunks(m: Chunks, kind: SpanKind, keys: seq<u64>, chunks: seq<Chunk>): Chunks
    requires |keys| == |chunks|
  {
    if |keys| == 0 then m
    else
      var n := |keys| - 1;
      StoreChunks(m, kind, keys[..n], chunks[..n])[ChunkKey(kind, keys[n]) := chunks[n]]
  }

  /** What a load reports for one key: the stored chunk, or the empty placeholder. */
  function ChunkOrEmpty(m: Chunks, k: ChunkKey): Chunk
  {
    if k in m then m[k] else []
  }

  /** A key of the saved kind holds the chunk given with its last occurrence in `keys`;
      every other key, in particular every key of the other kind, keeps what it held. */
  lemma {:induction false} StoreChunksAt(m: Chunks, kind: SpanKind, keys: seq<u64>, chunks: seq<Chunk>, k: ChunkKey)
    requires |keys| == |chunks|
    ensures Get(StoreChunks(m, kind, keys, chunks), k)
         == if k.kind != kind then Get(m, k)
            else match LastIndexOf(keys, k.index)
                 case Some(i) => Some(chunks[i])
                 case None => Get(m, k)
  {
    if |keys| > 0 {
      var n := |keys| - 1;
      StoreChunksAt(m, kind, keys[..n], chunks[..n], k);
    }
  }

  /** Partition independence: saving under one kind neither adds nor changes a chunk of the other. */
  lemma OtherKindUntouched(m: Chunks, kind: SpanKind, keys: seq<u64>, chunks: seq<Chunk>, other: SpanKind, index: u64)
    requires |keys| == |chunks| && other != kind
    ensures var saved := StoreChunks(m, kind, keys, chunks);
            (ChunkKey(other, index) in saved <==> ChunkKey(other, index) in m)
            && ChunkOrEmpty(saved, ChunkKey(other, index)) == ChunkOrEmpty(m, ChunkKey(other, index))
  {
    StoreChunksAt(m, kind, keys, chunks, ChunkKey(other, index));
  }

  /** Round trip: with distinct keys, every saved key is present under the saved kind and holds
      exactly the chunk saved with it. */
  lemma SaveThenLoadChunks(m: Chunks, kind: SpanKind, keys: seq<u64>, chunks: seq<Chunk>, i: nat)
    requires |keys| == |chunks| && i < |keys|
    requires forall a, b :: 0 <= a < b < |keys| ==> keys[a] != keys[b]
    ensures var saved := StoreChunks(m, kind, keys, chunks);
            ChunkKey(kind, keys[i]) in saved && saved[ChunkKey(kind, keys[i])] == chunks[i]
  {
    StoreChunksAt(m, kind, keys, chunks, ChunkKey(kind, keys[i]));
  }
}
