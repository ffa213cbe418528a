/** Tolerant extraction: a file's chunks are written out one after the other,
    zeros standing in for those that fail to open. */
module Extract {
  import opened Common

  const CHUNK: nat := 4096
  const SIZE_HEADER: nat := 8

  type Chunk = seq<byte>

  /** What `read_chunk` yields for each chunk: its plaintext, or None. */
  predicate WellSized(chunks: seq<Option<Chunk>>) {
    forall i :: 0 <= i < |chunks| && chunks[i].Some? ==> |chunks[i].value| == CHUNK
  }

  /** The byte at offset `o` of the padded plaintext, zero in a chunk that failed. */
  function PlainByte(chunks: seq<Option<Chunk>>, o: nat): byte
    requires WellSized(chunks) && o < CHUNK * |chunks|
  {
    match chunks[o / CHUNK]
    case Some(pt) => pt[o % CHUNK]
    case None => 0
  }

  /** In hide-size mode the first 8 bytes hold the size and are not content. */
  function Shift(chunks: seq<Option<Chunk>>, hideSize: bool): nat {
    if hideSize && chunks != [] then SIZE_HEADER else 0
  }

  function Opened(chunks: seq<Option<Chunk>>): nat {
    if chunks == [] then 0
    else Opened(chunks[..|chunks| - 1]) + if chunks[|chunks| - 1].Some? then 1 else 0
  }

  /** They are counted: as many as there are chunks that open. */
  lemma {:induction false} OpenedCounts(chunks: seq<Option<Chunk>>)
    ensures Opened(chunks) == |set i | 0 <= i < |chunks| && chunks[i].Some?|
  {
    if chunks != [] {
      var n := |chunks| - 1;
      var before, all := set i | 0 <= i < n && chunks[..n][i].Some?, set i | 0 <= i < |chunks| && chunks[i].Some?;
      OpenedCounts(chunks[..n]);
      assert forall i | 0 <= i < n :: chunks[..n][i] == chunks[i];
      assert all == if chunks[n].Some? then before + {n} else before;
    }
  }

  /** Position `o` of chunk `i` in the output, as an offset of the whole. */
  lemma OffsetOfChunk(i: nat, k: nat)
    requires k < CHUNK
    ensures (i * CHUNK + k) / CHUNK == i && (i * CHUNK + k) % CHUNK == k
  {
  }

  /** Byte `j` of chunk `i` is the plaintext's byte at `4096 i + j`. */
  lemma PlainByteOf(chunks: seq<Option<Chunk>>, i: nat, j: nat)
    requires WellSized(chunks) && i < |chunks| && j < 4096
    ensures PlainByte(chunks, 4096 * i + j) == match chunks[i] case Some(pt) => pt[j] case None => 0
  {
    OffsetOfChunk(i, j);
  }

  /** `cmd_extract --tolerate-errors`: every byte lands where it belongs, whatever
      pattern of chunks fails; the counts add up; and in normal mode the length is
      the stored size or what the chunks hold, whichever is less. */
  method CmdExtract(chunks: seq<Option<Chunk>>, storedSize: nat, hideSize: bool)
    returns (dst: seq<byte>, chunksOk: nat, chunksBad: nat)
    requires WellSized(chunks)
    ensures var total := 4096 * |chunks| - if hideSize && chunks != [] then 8 else 0;
      |dst| == if !hideSize && storedSize < total then storedSize else total
    ensures forall k :: 0 <= k < |dst| ==> dst[k] == PlainByte(chunks, k + if hideSize && chunks != [] then 8 else 0)
    ensures chunksOk == |set i | 0 <= i < |chunks| && chunks[i].Some?| && chunksOk + chunksBad == |chunks|
  {
    dst, chunksOk, chunksBad := [], 0, 0;
    ghost var shift := Shift(chunks, hideSize);
    for idx := 0 to |chunks|
      invariant |dst| == if idx == 0 then 0 else CHUNK * idx - shift
      invariant forall k :: 0 <= k < |dst| ==> dst[k] == PlainByte(chunks, k + shift)
      invariant chunksOk == Opened(chunks[..idx]) && chunksOk + chunksBad == idx
    {
      var pt: seq<byte>;
      match chunks[idx] {
        case Some(z) =>
          chunksOk := chunksOk + 1;
          pt := z;
        case None =>
          chunksBad := chunksBad + 1;
          pt := seq(CHUNK, i => 0);
      }
      assert chunks[..idx + 1][..idx] == chunks[..idx];
      var start := if hideSize && idx == 0 then SIZE_HEADER else 0;
      ghost var before := dst;
      dst := dst + pt[start..];
      forall k | |before| <= k < |dst| ensures dst[k] == PlainByte(chunks, k + shift) {
        var o := k - |before| + start;
        assert k + shift == idx * CHUNK + o;
        OffsetOfChunk(idx, o);
      }
    }
    assert chunks[..|chunks|] == chunks;
    OpenedCounts(chunks);
    if !hideSize && storedSize < |dst| {
      dst := dst[..storedSize];
    }
  }
}
