/** Splitting a worker's data into blocks.

    Block `i` of the data starts at `i * block` and ends at the next multiple or at the end of the data,
    whichever comes first. There are `CeilDiv(length, block)` of them, all but the last are full, none
    is empty, and put one after the other they are the data. Streams write the blocks at growing
    offsets of one file, small-file workloads write each block to a file of its own. */
module Chunks {
  import opened Bytes

  function Min(a: nat, b: nat): nat { if a < b then a else b }

  function CeilDiv(a: nat, b: nat): nat
    requires 0 < b
  {
    (a + b - 1) / b
  }

  /** End of the first `i` chunks. */
  function Upto(length: nat, block: nat, i: nat): nat { Min(i * block, length) }

  /** Chunk `i` of data.chunks(block). */
  function Chunk(data: seq<Byte>, block: nat, i: nat): seq<Byte>
  {
    if Upto(|data|, block, i) <= Upto(|data|, block, i + 1) then
      data[Upto(|data|, block, i)..Upto(|data|, block, i + 1)]
    else []
  }

  /** The chunks before CeilDiv are full up to the last one, which ends the data. */
  lemma ChunkBounds(length: nat, block: nat, i: nat)
    requires 0 < block && i < CeilDiv(length, block)
    ensures Upto(length, block, i) == i * block < length
    ensures i * block < Upto(length, block, i + 1)
  {
    var n := CeilDiv(length, block);
    CeilBounds(length, block);
    assert i * block <= (n - 1) * block;
    assert (i + 1) * block == i * block + block;
  }

  lemma CeilBounds(length: nat, block: nat)
    requires 0 < block
    ensures (CeilDiv(length, block) - 1) * block < length <= CeilDiv(length, block) * block
  {
  }

  lemma AllChunks(length: nat, block: nat)
    requires 0 < block
    ensures Upto(length, block, CeilDiv(length, block)) == length
  {
    CeilBounds(length, block);
  }
}
