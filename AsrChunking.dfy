/**
 * How `recognize_file` cuts the audio buffer into packets: consecutive slices
 * of `ChunkSize` bytes, the last one possibly shorter, and only the last one
 * flagged as the final packet.
 */
module AsrChunking {
  import opened Common
  import opened AsrFrame

  /** `(n + ChunkSize - 1) // ChunkSize`: the number of packets for `n` bytes. */
  function ChunkCount(n: nat): (c: nat)
    ensures n == 0 <==> c == 0
    ensures (c - 1) * ChunkSize < n <= c * ChunkSize || (n == 0 && c == 0)
  {
    (n + ChunkSize - 1) / ChunkSize
  }

  /** Start offset of packet `i`. */
  function ChunkStart(i: nat): nat {
    i * ChunkSize
  }

  /** End offset of packet `i`: `min(start + ChunkSize, n)`. */
  function ChunkEnd(n: nat, i: nat): nat {
    Min(ChunkStart(i) + ChunkSize, n)
  }

  /** Packet `i` of `data`, which has between 1 and `ChunkSize` bytes. */
  function Chunk(data: seq<byte>, i: nat): (c: seq<byte>)
    requires i < ChunkCount(|data|)
    ensures 1 <= |c| <= ChunkSize
    ensures ChunkStart(i) < ChunkEnd(|data|, i) <= |data|
    ensures c == data[ChunkStart(i)..ChunkEnd(|data|, i)]
  {
    data[ChunkStart(i)..ChunkEnd(|data|, i)]
  }

  /** `is_last = (i == total_chunks - 1)`. */
  predicate IsLastChunk(n: nat, i: nat) {
    i == ChunkCount(n) - 1
  }

  /** The packets from index `i` on, in sending order. */
  function ChunksFrom(data: seq<byte>, i: nat): (cs: seq<seq<byte>>)
    requires i <= ChunkCount(|data|)
    ensures |cs| == ChunkCount(|data|) - i
    ensures forall k :: 0 <= k < |cs| ==> cs[k] == Chunk(data, i + k)
    decreases ChunkCount(|data|) - i
  {
    if i == ChunkCount(|data|) then [] else [Chunk(data, i)] + ChunksFrom(data, i + 1)
  }

  function Concat(cs: seq<seq<byte>>): seq<byte> {
    if |cs| == 0 then [] else cs[0] + Concat(cs[1..])
  }

  /** The packets from index `i` on, joined, are the buffer from that packet's start. */
  lemma {:induction false} ChunksFromCover(data: seq<byte>, i: nat)
    requires i <= ChunkCount(|data|)
    ensures ChunkStart(i) <= |data| || i == ChunkCount(|data|)
    ensures i < ChunkCount(|data|) ==> Concat(ChunksFrom(data, i)) == data[ChunkStart(i)..]
    ensures i == ChunkCount(|data|) ==> Concat(ChunksFrom(data, i)) == []
    decreases ChunkCount(|data|) - i
  {
    if i < ChunkCount(|data|) {
      var n := |data|;
      ChunksFromCover(data, i + 1);
      var cs := ChunksFrom(data, i);
      assert cs[1..] == ChunksFrom(data, i + 1);
      if i + 1 < ChunkCount(n) {
        assert ChunkEnd(n, i) == ChunkStart(i + 1);
        assert data[ChunkStart(i)..] == Chunk(data, i) + data[ChunkStart(i + 1)..];
      } else {
        assert ChunkEnd(n, i) == n;
        assert data[ChunkStart(i)..] == Chunk(data, i);
      }
    }
  }

  /** The concatenation of all packets is exactly the audio buffer. */
  lemma ChunksCoverBuffer(data: seq<byte>)
    ensures Concat(ChunksFrom(data, 0)) == data
  {
    ChunksFromCover(data, 0);
  }

  /** Exactly one packet is flagged last when there is audio, and none when there is none. */
  lemma OnlyFinalChunkIsLast(n: nat)
    ensures |set i | 0 <= i < ChunkCount(n) && IsLastChunk(n, i)| == (if n == 0 then 0 else 1)
  {
    var last := set i | 0 <= i < ChunkCount(n) && IsLastChunk(n, i);
    if n == 0 {
      assert last == {};
    } else {
      assert last == {ChunkCount(n) - 1};
    }
  }

  /** 8000 bytes go out as three packets of 3200, 3200 and 1600 bytes. */
  lemma EightThousandBytes(data: seq<byte>)
    requires |data| == 8000
    ensures ChunkCount(|data|) == 3
    ensures |Chunk(data, 0)| == 3200 && |Chunk(data, 1)| == 3200 && |Chunk(data, 2)| == 1600
    ensures IsLastChunk(|data|, 2) && !IsLastChunk(|data|, 0) && !IsLastChunk(|data|, 1)
  {
  }
}
