/**
 * How the viewer cuts the chosen file into fixed-size chunks, what each chunk
 * request carries, and the percentage it reports after each acknowledged chunk.
 */
module Chunking {

  newtype byte = x: int | 0 <= x < 256

  /** The file picked in the browser; its `size` is the number of bytes. */
  datatype File = File(data: seq<byte>)

  /** 5 MiB per chunk. */
  const CHUNK_SIZE: nat := 5 * 1024 * 1024

  /** `Math.ceil(size / CHUNK_SIZE)`: the least number of chunks that holds `size` bytes. */
  function TotalChunks(size: nat): nat {
    (size + CHUNK_SIZE - 1) / CHUNK_SIZE
  }

  /** The count is the least `n` whose chunks hold `size` bytes, i.e. the ceiling of `size / CHUNK_SIZE`. */
  lemma TotalChunksIsCeil(size: nat)
    ensures size <= TotalChunks(size) * CHUNK_SIZE
    ensures TotalChunks(size) == 0 || (TotalChunks(size) - 1) * CHUNK_SIZE < size
  {
  }

  /** First byte of chunk `k`. */
  function ChunkStart(k: nat): nat {
    k * CHUNK_SIZE
  }

  /** One past the last byte of chunk `k`: `Math.min(size, start + CHUNK_SIZE)`. */
  function ChunkEnd(size: nat, k: nat): nat {
    if size < ChunkStart(k) + CHUNK_SIZE then size else ChunkStart(k) + CHUNK_SIZE
  }

  lemma MulMonotone(j: nat, k: nat)
    requires j <= k
    ensures j * CHUNK_SIZE <= k * CHUNK_SIZE
  {
  }

  /**
   * Every planned chunk is a non-empty range of at most CHUNK_SIZE bytes inside
   * the file, and each one but the last is full and ends where the next begins.
   */
  lemma ChunkBounds(size: nat, k: nat)
    requires k < TotalChunks(size)
    ensures ChunkStart(k) < ChunkEnd(size, k) <= size
    ensures ChunkEnd(size, k) - ChunkStart(k) <= CHUNK_SIZE
    ensures k + 1 < TotalChunks(size) ==>
              ChunkEnd(size, k) == ChunkStart(k + 1) && ChunkEnd(size, k) - ChunkStart(k) == CHUNK_SIZE
  {
    var n := TotalChunks(size);
    TotalChunksIsCeil(size);
    MulMonotone(k, n - 1);
    if k + 1 < n {
      MulMonotone(k + 1, n - 1);
    }
  }

  /** The first chunk starts at byte 0 and the last one ends at the file's last byte. */
  lemma ChunksCoverFile(size: nat)
    requires 0 < size
    ensures ChunkStart(0) == 0
    ensures ChunkEnd(size, TotalChunks(size) - 1) == size
  {
    TotalChunksIsCeil(size);
  }

  /** Every byte of the file lies in exactly one chunk, the one numbered `b / CHUNK_SIZE`. */
  lemma ChunkOfByte(size: nat, b: nat, j: nat)
    requires b < size
    ensures b / CHUNK_SIZE < TotalChunks(size)
    ensures ChunkStart(b / CHUNK_SIZE) <= b < ChunkEnd(size, b / CHUNK_SIZE)
    ensures ChunkStart(j) <= b < ChunkEnd(size, j) ==> j == b / CHUNK_SIZE
  {
    TotalChunksIsCeil(size);
  }

  const OCTET_STREAM: string := "application/octet-stream"

  /** One POST to the upload endpoint: its headers and its binary body. */
  datatype Request = Request(contentType: string, fileId: string, chunkNumber: nat, totalChunks: nat, chunk: seq<byte>)

  /** The request for chunk `k` of `f`: `file.slice(start, end)` with its metadata headers. */
  function ChunkRequest(f: File, fileId: string, k: nat): Request
    requires k < TotalChunks(|f.data|)
  {
    ChunkBounds(|f.data|, k);
    Request(OCTET_STREAM, fileId, k, TotalChunks(|f.data|), f.data[ChunkStart(k)..ChunkEnd(|f.data|, k)])
  }

  /** All requests of one upload, in the order the loop sends them. */
  function Plan(f: File, fileId: string): seq<Request> {
    seq(TotalChunks(|f.data|), k requires 0 <= k < TotalChunks(|f.data|) => ChunkRequest(f, fileId, k))
  }

  /** The bytes a receiver gets by joining the chunk bodies in arrival order. */
  function Concat(requests: seq<Request>): seq<byte> {
    if requests == [] then [] else Concat(requests[..|requests| - 1]) + requests[|requests| - 1].chunk
  }

  /**
   * Request `k` of the plan carries the upload's `file-id`, its own loop index as
   * `chunk-number`, the computed count as `total-chunks`, and a non-empty body of
   * at most CHUNK_SIZE bytes.
   */
  lemma PlanMetadata(f: File, fileId: string, k: nat)
    requires k < |Plan(f, fileId)|
    ensures |Plan(f, fileId)| == TotalChunks(|f.data|)
    ensures Plan(f, fileId)[k].contentType == OCTET_STREAM
    ensures Plan(f, fileId)[k].fileId == fileId
    ensures Plan(f, fileId)[k].chunkNumber == k
    ensures Plan(f, fileId)[k].totalChunks == |Plan(f, fileId)|
    ensures 0 < |Plan(f, fileId)[k].chunk| <= CHUNK_SIZE
  {
    ChunkBounds(|f.data|, k);
  }

  /** The chunks of the first `k` requests are exactly the file's bytes up to where chunk `k - 1` ends. */
  lemma {:induction false} PrefixReassembles(f: File, fileId: string, k: nat)
    requires k <= TotalChunks(|f.data|)
    ensures Concat(Plan(f, fileId)[..k]) == f.data[..if k == 0 then 0 else ChunkEnd(|f.data|, k - 1)]
  {
    var plan := Plan(f, fileId);
    var size := |f.data|;
    if k > 0 {
      PrefixReassembles(f, fileId, k - 1);
      assert plan[..k][..k - 1] == plan[..k - 1];
      ChunkBounds(size, k - 1);
      var before := if k - 1 == 0 then 0 else ChunkEnd(size, k - 2);
      if k - 1 > 0 {
        ChunkBounds(size, k - 2);
      }
      assert before == ChunkStart(k - 1);
      assert plan[k - 1].chunk == f.data[before..ChunkEnd(size, k - 1)];
      assert f.data[..before] + f.data[before..ChunkEnd(size, k - 1)] == f.data[..ChunkEnd(size, k - 1)];
    }
  }

  /** Joining all chunk bodies in order gives back the whole file, for every file size. */
  lemma PlanReassembles(f: File, fileId: string)
    ensures Concat(Plan(f, fileId)) == f.data
  {
    var size := |f.data|;
    var n := TotalChunks(size);
    var end := if n == 0 then 0 else ChunkEnd(size, n - 1);
    assert end == size by {
      TotalChunksIsCeil(size);
      if n > 0 {
        ChunksCoverFile(size);
      }
    }
    PrefixReassembles(f, fileId, n);
    assert Plan(f, fileId)[..n] == Plan(f, fileId);
    assert f.data[..end] == f.data;
  }

  /**
   * `Math.round((k + 1) / total * 100)` on exact rationals: the integer nearest to
   * the percentage, halves rounded up.
   */
  function Progress(k: nat, total: nat): nat
    requires k < total
  {
    (200 * (k + 1) + total) / (2 * total)
  }

  /** The computed value is within one half of `(k + 1) * 100 / total`, halves going up. */
  lemma ProgressRounds(k: nat, total: nat)
    requires k < total
    ensures (2 * Progress(k, total) - 1) * total <= 200 * (k + 1) < (2 * Progress(k, total) + 1) * total
  {
  }

  /** The reported percentage never exceeds 100 and is exactly 100 after the final chunk. */
  lemma ProgressBounds(k: nat, total: nat)
    requires k < total
    ensures Progress(k, total) <= 100
    ensures k == total - 1 ==> Progress(k, total) == 100
  {
    var p := Progress(k, total);
    ProgressRounds(k, total);
    if p > 100 {
      ScaleMonotone(201, 2 * p - 1, total);
    }
    if k == total - 1 && p < 100 {
      ScaleMonotone(2 * p + 1, 199, total);
    }
  }

  lemma ScaleMonotone(a: int, b: int, c: nat)
    requires a <= b
    ensures a * c <= b * c
  {
  }

  /** Progress does not go backwards from one chunk to a later one. */
  lemma ProgressMonotone(j: nat, k: nat, total: nat)
    requires j <= k < total
    ensures Progress(j, total) <= Progress(k, total)
  {
    ProgressRounds(j, total);
    ProgressRounds(k, total);
    var pj, pk := Progress(j, total), Progress(k, total);
    if pj > pk {
      ScaleMonotone(2 * pk + 1, 2 * pj - 1, total);
    }
  }
}
