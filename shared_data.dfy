/** beocomp::shared_data (smem_nodes): the metadata of a data set registered as shared. Every
    field is computed once by the constructor in size_t arithmetic. chunk_len_ is never
    initialised, so it is not part of the model. */
module SharedDataInfo {
  import opened Common

  datatype SharedData = SharedData(len: Size, numChunks: Size, baseSize: Size, size: Size, chunkSize: Size)

  /** The chunk count as the constructor computes it: len/chunk_len + len%chunk_len. It never
      exceeds len, so the size_t sum does not wrap. */
  function NumChunksAsWritten(len: Size, chunkLen: Size): (n: Size)
    requires chunkLen > 0
    ensures n <= len
  {
    var q, r := len / chunkLen, len % chunkLen;
    assert len == q * chunkLen + r;
    assert q <= q * chunkLen by {
      MulMonotone(q, chunkLen);
    }
    q + r
  }

  lemma MulMonotone(q: nat, c: nat)
    requires c >= 1
    ensures q <= q * c
  {
    assert q * c == q + q * (c - 1);
  }

  /** The number of chunks of chunk_len elements that len elements need: the ceiling of
      len/chunk_len, computed without the overflow that len + chunk_len - 1 could cause. */
  function NumChunks(len: Size, chunkLen: Size): (n: Size)
    requires chunkLen > 0
    ensures n * chunkLen >= len
    ensures n > 0 ==> (n - 1) * chunkLen < len
  {
    var q, r := len / chunkLen, len % chunkLen;
    CeilingStep(len, chunkLen, q, r);
    if r == 0 then q else q + 1
  }

  /** The facts about quotient and remainder that the ceiling needs. */
  lemma CeilingStep(len: nat, c: nat, q: nat, r: nat)
    requires c > 0 && q == len / c && r == len % c
    ensures r == 0 ==> q * c == len && (q > 0 ==> (q - 1) * c < len)
    ensures r != 0 ==> q < len && (q + 1) * c >= len && q * c < len
  {
    var p := q * c;
    assert len == p + r;
    assert (q + 1) * c == p + c;
    if q > 0 {
      assert (q - 1) * c == p - c;
    }
    MulMonotone(q, c);
  }

  /** The count as written is never below the ceiling, and equals it exactly when the remainder
      is 0 or 1; with a larger remainder it counts remainder - 1 chunks too many. */
  lemma AsWrittenVersusCeiling(len: Size, chunkLen: Size)
    requires chunkLen > 0
    ensures NumChunksAsWritten(len, chunkLen) >= NumChunks(len, chunkLen)
    ensures NumChunksAsWritten(len, chunkLen) == NumChunks(len, chunkLen) <==> len % chunkLen <= 1
    ensures len % chunkLen > 1 ==>
      NumChunksAsWritten(len, chunkLen) == NumChunks(len, chunkLen) + len % chunkLen - 1
  {
  }

  /** Ten elements in chunks of four: the constructor reports four chunks where three suffice,
      and the fourth would hold no element. */
  lemma TenInChunksOfFour()
    ensures NumChunksAsWritten(10, 4) == 4
    ensures NumChunks(10, 4) == 3 && 2 * 4 < 10 <= 3 * 4
  {
  }

  /** The constructor as written: size = base_size * len and chunk_size = chunk_len * base_size in
      size_t, the chunk count as above; len() and base_size() return the arguments. A zero
      chunk_len divides by zero. */
  function NewSharedDataAsWritten(baseSize: Size, len: Size, chunkLen: Size): (d: SharedData)
    requires chunkLen > 0
    ensures d.len == len && d.baseSize == baseSize
    ensures d.size == (baseSize * len) % SIZE_MOD && d.chunkSize == (chunkLen * baseSize) % SIZE_MOD
    ensures d.numChunks == NumChunksAsWritten(len, chunkLen)
  {
    SharedData(len, NumChunksAsWritten(len, chunkLen), baseSize,
               (baseSize * len) % SIZE_MOD, (chunkLen * baseSize) % SIZE_MOD)
  }

  /** The constructor with the chunk count taken as the ceiling. */
  function NewSharedData(baseSize: Size, len: Size, chunkLen: Size): (d: SharedData)
    requires chunkLen > 0
    ensures d.len == len && d.baseSize == baseSize
    ensures d.size == (baseSize * len) % SIZE_MOD && d.chunkSize == (chunkLen * baseSize) % SIZE_MOD
    ensures d.numChunks == NumChunks(len, chunkLen)
  {
    SharedData(len, NumChunks(len, chunkLen), baseSize,
               (baseSize * len) % SIZE_MOD, (chunkLen * baseSize) % SIZE_MOD)
  }

  /** With the ceiling count and no size_t overflow, the chunks hold all the data's bytes, and
      dropping one chunk would not. */
  lemma ChunksCoverData(baseSize: Size, len: Size, chunkLen: Size)
    requires chunkLen > 0 && baseSize > 0
    requires baseSize * len < SIZE_MOD && chunkLen * baseSize < SIZE_MOD
    ensures NewSharedData(baseSize, len, chunkLen).numChunks * NewSharedData(baseSize, len, chunkLen).chunkSize
      >= NewSharedData(baseSize, len, chunkLen).size
    ensures NewSharedData(baseSize, len, chunkLen).numChunks > 0 ==>
      (NewSharedData(baseSize, len, chunkLen).numChunks - 1) * NewSharedData(baseSize, len, chunkLen).chunkSize
      < NewSharedData(baseSize, len, chunkLen).size
  {
    var d := NewSharedData(baseSize, len, chunkLen);
    var n := d.numChunks;
    assert d.size == baseSize * len && d.chunkSize == chunkLen * baseSize;
    ScaleBoth(n, chunkLen, len, baseSize);
    if n > 0 {
      ScaleStrict(n - 1, chunkLen, len, baseSize);
    }
  }

  lemma ScaleBoth(n: nat, c: nat, len: nat, b: nat)
    requires n * c >= len
    ensures n * (c * b) >= b * len
  {
    assert n * (c * b) == (n * c) * b;
    MulLe(len, n * c, b);
  }

  lemma ScaleStrict(m: nat, c: nat, len: nat, b: nat)
    requires m * c < len && b > 0
    ensures m * (c * b) < b * len
  {
    assert m * (c * b) == (m * c) * b;
    MulLt(m * c, len, b);
  }

  lemma MulLe(x: nat, y: nat, b: nat)
    requires x <= y
    ensures b * x <= y * b
  {
    assert y * b == x * b + (y - x) * b;
  }

  lemma MulLt(x: nat, y: nat, b: nat)
    requires x < y && b > 0
    ensures x * b < b * y
  {
    assert y * b == x * b + (y - x) * b;
    assert (y - x) * b >= b by {
      MulMonotone(b, y - x);
    }
  }
}
