/** UMEM regions: the memory an application shares with its sockets, divided into chunks. */
module Umem {
  import opened Words

  datatype Region = Region(totalSize: nat, chunkSize: nat, headroom: nat)

  datatype Registration = Registered(region: Region) | InvalidParameter

  /** Checks a region; a truncated last chunk is left out of use. */
  function Register(r: Region): (result: Registration)
    ensures result.Registered? ==> ValidRegion(result.region)
    ensures result.Registered? ==> result.region.totalSize <= r.totalSize < result.region.totalSize + r.chunkSize
    ensures result.Registered? && r.totalSize % r.chunkSize == 0 ==> result.region == r
  {
    if r.totalSize == 0 || r.totalSize > 0xFFFF_FFFF then InvalidParameter
    else if r.headroom > 0xFFFF || r.headroom > r.chunkSize || r.chunkSize > r.totalSize || r.chunkSize == 0 then
      InvalidParameter
    else
      WholeChunks(r.totalSize, r.chunkSize);
      Registered(r.(totalSize := r.totalSize - r.totalSize % r.chunkSize))
  }

  ghost predicate ValidRegion(r: Region) {
    && 0 < r.chunkSize <= r.totalSize < WORD
    && r.totalSize % r.chunkSize == 0
    && r.headroom <= r.chunkSize && r.headroom <= 0xFFFF
  }

  lemma {:induction false} WholeChunks(total: nat, chunk: nat)
    requires 0 < chunk <= total
    ensures chunk <= total - total % chunk
    ensures (total - total % chunk) % chunk == 0
  {
    var q := total / chunk;
    assert total - total % chunk == chunk * q;
    assert q >= 1 by {
      MulBound(chunk, 1 - q);
      assert chunk * (1 - q) == chunk - chunk * q;
    }
    MulBound(chunk, q);
    ModUnique(chunk * q, chunk, q, 0);
  }

  /** The chunk an address lies in, counted out; the quotient of address and chunk size. */
  function ChunkOf(chunkSize: nat, address: nat): nat
    requires chunkSize > 0
    decreases address
  {
    if address < chunkSize then 0 else 1 + ChunkOf(chunkSize, address - chunkSize)
  }

  lemma {:induction false} ChunkOfIsQuotient(chunkSize: nat, address: nat)
    requires chunkSize > 0
    ensures ChunkOf(chunkSize, address) == address / chunkSize
    decreases address
  {
    if address >= chunkSize {
      var rest := address - chunkSize;
      ChunkOfIsQuotient(chunkSize, rest);
      var q := rest / chunkSize;
      assert chunkSize * (q + 1) == chunkSize * q + chunkSize;
      DivUnique(address, chunkSize, q + 1, rest % chunkSize);
    } else {
      DivUnique(address, chunkSize, 0, address);
    }
  }

  lemma {:induction false} ChunkOfMonotone(chunkSize: nat, low: nat, high: nat)
    requires chunkSize > 0 && low <= high
    ensures ChunkOf(chunkSize, low) <= ChunkOf(chunkSize, high)
    decreases high
  {
    if low >= chunkSize {
      ChunkOfMonotone(chunkSize, low - chunkSize, high - chunkSize);
    }
  }

  lemma {:induction false} ChunkBelow(chunkSize: nat, address: nat, total: nat, n: nat)
    requires chunkSize > 0 && address < total == chunkSize * n
    ensures ChunkOf(chunkSize, address) < ChunkOf(chunkSize, total)
    decreases n
  {
    assert n > 0 && chunkSize * n == chunkSize * (n - 1) + chunkSize;
    if address >= chunkSize {
      ChunkBelow(chunkSize, address - chunkSize, total - chunkSize, n - 1);
    }
  }

  /** A byte inside the region lies in one of its chunks. */
  lemma {:induction false} ChunkInBounds(r: Region, address: nat)
    requires ValidRegion(r) && address < r.totalSize
    ensures ChunkOf(r.chunkSize, address) < ChunkOf(r.chunkSize, r.totalSize)
  {
    ChunkBelow(r.chunkSize, address, r.totalSize, r.totalSize / r.chunkSize);
  }

  /** Between two addresses of a chunk there are only addresses of that chunk. */
  lemma {:induction false} ChunkBetween(chunkSize: nat, low: nat, mid: nat, high: nat)
    requires chunkSize > 0 && low <= mid <= high && ChunkOf(chunkSize, low) == ChunkOf(chunkSize, high)
    ensures ChunkOf(chunkSize, mid) == ChunkOf(chunkSize, low)
  {
    ChunkOfMonotone(chunkSize, low, mid);
    ChunkOfMonotone(chunkSize, mid, high);
  }
}
