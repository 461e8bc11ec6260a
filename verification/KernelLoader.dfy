/** The constructor of the generated C file: it reserves an aligned region, trims it, and
    rebuilds the kernel image in place from the chunk table.

    Memory is a byte array per mapping and addresses are numbers of a stated width. The
    system calls are parameters: what mmap returns is any address or a failure. */
module KernelLoader {
  import opened Wrappers
  import opened Bits
  import opened Bytes
  import opened CompactBundle

  /** `(reserved + A - 1) & ~(A - 1)` for the alignment A = 2^k, on addresses of `bits` bits. */
  function AlignUp(reserved: nat, k: nat, bits: nat): (start: nat)
    requires k <= bits && reserved + Pow2(k) <= Pow2(bits)
    ensures start % Pow2(k) == 0 && reserved <= start < reserved + Pow2(k)
  {
    var x := reserved + Pow2(k) - 1;
    AndHighBits(x, k, bits);
    MultipleBelow(x, Pow2(k));
    And(x, Pow2(bits) - Pow2(k), bits)
  }

  lemma MultipleBelow(x: nat, a: nat)
    requires 0 < a
    ensures (x - x % a) % a == 0
  {
    assert x - x % a == a * (x / a) + 0;
    DivModUnique(x - x % a, a, x / a, 0);
  }

  /** A page size that divides the mapping address, the alignment and the image size also divides
      both trimmed ranges, so unmapping them removes no page of the image. */
  lemma TrimsWholePages(reserved: nat, k: nat, bits: nat, size: nat, page: nat)
    requires k <= bits && reserved + Pow2(k) <= Pow2(bits)
    requires 0 < page && reserved % page == 0 && Pow2(k) % page == 0 && size % Pow2(k) == 0
    ensures var start := AlignUp(reserved, k, bits);
            && (start - reserved) % page == 0
            && (start + size) % page == 0
            && (reserved + size + Pow2(k) - (start + size)) % page == 0
  {
    TrimArithmetic(reserved, Pow2(k), AlignUp(reserved, k, bits), size, page);
  }

  lemma TrimArithmetic(reserved: nat, a: nat, start: nat, size: nat, page: nat)
    requires 0 < page && 0 < a && reserved % page == 0 && a % page == 0 && size % a == 0 && start % a == 0
    ensures (start - reserved) % page == 0 && (start + size) % page == 0
    ensures (reserved + size + a - (start + size)) % page == 0
  {
    Divides(start, a, page);
    Divides(size, a, page);
    DifferenceMultiple(start, reserved, page);
    SumMultiple(start, size, page);
    SumMultiple(reserved, a, page);
    DifferenceMultiple(reserved + a, start, page);
  }

  lemma Divides(x: int, a: int, page: int)
    requires 0 < page && 0 < a && x % a == 0 && a % page == 0
    ensures x % page == 0
  {
    var q, p := x / a, a / page;
    assert x == page * (p * q) + 0 by {
      assert x == a * q && a == page * p;
      assert (page * p) * q == page * (p * q);
    }
    DivModUnique(x, page, p * q, 0);
  }

  lemma SumMultiple(x: int, y: int, page: int)
    requires 0 < page && x % page == 0 && y % page == 0
    ensures (x + y) % page == 0
  {
    var p, q := x / page, y / page;
    assert x + y == page * (p + q) + 0 by {
      assert page * p + page * q == page * (p + q);
    }
    DivModUnique(x + y, page, p + q, 0);
  }

  lemma DifferenceMultiple(x: int, y: int, page: int)
    requires 0 < page && x % page == 0 && y % page == 0
    ensures (x - y) % page == 0
  {
    var p, q := x / page, y / page;
    assert x - y == page * (p - q) + 0 by {
      assert page * p - page * q == page * (p - q);
    }
    DivModUnique(x - y, page, p - q, 0);
  }

  // ----- mappings --------------------------------------------------------------------------------

  /** An anonymous private mapping: its address and the bytes that are still mapped. */
  class Mapping {
    var address: nat
    var bytes: array<Byte>

    constructor (address: nat, length: nat)
      ensures this.address == address && fresh(bytes) && bytes[..] == Zeros(length)
    {
      this.address := address;
      bytes := new Byte[length](_ => 0);
    }

    /** munmap of a range at either end: its pages are gone, and the others keep their place and contents. */
    method Unmap(from: nat, length: nat)
      requires address <= from && from + length <= address + bytes.Length
      requires from == address || from + length == address + bytes.Length
      modifies this
      ensures fresh(bytes)
      ensures if from + length == old(address + bytes.Length)
              then address == old(address) && bytes[..] == old(bytes[..])[..from - old(address)]
              else address == from + length && bytes[..] == old(bytes[..])[length..]
    {
      var first, kept := 0, bytes.Length - length;
      if from + length != address + bytes.Length {
        first, address := length, from + length;
      }
      var rest := new Byte[kept];
      forall i | 0 <= i < kept {
        rest[i] := bytes[first + i];
      }
      bytes := rest;
    }
  }

  /** The static variable of the generated file: `kernel_bundle`, null when mmap failed. */
  class Bundle {
    var kernel: Mapping?

    constructor ()
      ensures kernel == null
    {
      kernel := null;
    }

    /** `mapped` is what mmap returned: the address of a zero-filled mapping, or a failure. What stays mapped is
        exactly the image, at the first aligned address of the reservation. */
    method Init(mapped: Option<nat>, k: nat, bits: nat, size: nat, payload: seq<Byte>, chunks: seq<Chunk>)
      requires k <= bits
      requires mapped.Some? ==> mapped.value + size + Pow2(k) <= Pow2(bits)
      requires InBounds(chunks, |payload|) && Offset(chunks, |chunks|) == size
      requires kernel == null
      modifies this
      ensures kernel != null <==> mapped.Some?
      ensures kernel != null ==> fresh(kernel) && fresh(kernel.bytes)
      ensures kernel != null ==>
                kernel.address % Pow2(k) == 0 && mapped.value <= kernel.address < mapped.value + Pow2(k)
      ensures kernel != null ==> kernel.bytes[..] == Decode(chunks, payload) && kernel.bytes.Length == size
    {
      if mapped.None? {
        return;
      }
      var mapping := Reserve(mapped.value, k, bits, size);
      Replay(mapping.bytes, payload, chunks);
      kernel := mapping;
    }

    /** The destructor releases all that is still mapped. */
    method Free(size: nat)
      requires kernel != null ==> kernel.bytes.Length == size
      modifies kernel
      ensures kernel != null ==> kernel.bytes.Length == 0
    {
      if kernel != null {
        kernel.Unmap(kernel.address, size);
      }
    }

    /** krunfw_get_kernel: the size it reports and the bytes it points to. */
    method Get(size: nat) returns (reported: nat, image: seq<Byte>)
      requires kernel != null ==> kernel.bytes.Length == size
      ensures kernel == null ==> reported == 0
      ensures kernel != null ==> reported == |image| && image == kernel.bytes[..]
    {
      if kernel == null {
        return 0, [];
      }
      return size, kernel.bytes[..];
    }
  }

  /** Reserves the size and one alignment unit, and gives back what lies before and after the aligned region. */
  method Reserve(reserved: nat, k: nat, bits: nat, size: nat) returns (mapping: Mapping)
    requires k <= bits && reserved + size + Pow2(k) <= Pow2(bits)
    ensures fresh(mapping) && fresh(mapping.bytes)
    ensures mapping.address % Pow2(k) == 0 && reserved <= mapping.address < reserved + Pow2(k)
    ensures mapping.bytes[..] == Zeros(size)
  {
    var reservedSize := size + Pow2(k);
    mapping := new Mapping(reserved, reservedSize);
    var start := AlignUp(reserved, k, bits);
    var prefix := start - reserved;
    if prefix != 0 {
      mapping.Unmap(reserved, prefix);
    }
    assert mapping.bytes[..] == Zeros(reservedSize - prefix);
    var suffix := reservedSize - prefix - size;
    assert mapping.bytes.Length == |mapping.bytes[..]| == size + suffix;
    if suffix != 0 {
      mapping.Unmap(start + size, suffix);
    }
  }

  /** Copies `bytes` into the mapping: memcpy, or memset when they are all equal. */
  method Store(memory: array<Byte>, at: nat, bytes: seq<Byte>)
    requires at + |bytes| <= memory.Length
    modifies memory
    ensures memory[..] == old(memory[..])[..at] + bytes + old(memory[..])[at + |bytes|..]
  {
    forall i | 0 <= i < |bytes| {
      memory[at + i] := bytes[i];
    }
  }

  // ----- the loop over the chunk table -----------------------------------------------------------

  lemma StoreExtends(image: seq<Byte>, rest: nat, bytes: seq<Byte>)
    requires |bytes| <= rest
    ensures var m := image + Zeros(rest);
            m[..|image|] + bytes + m[|image| + |bytes|..] == image + bytes + Zeros(rest - |bytes|)
  {
  }

  lemma SkipExtends(image: seq<Byte>, rest: nat, length: nat)
    requires length <= rest
    ensures image + Zeros(rest) == image + Fill(0, length) + Zeros(rest - length)
  {
  }

  /** The first `i` chunks have been replayed into the mapping `m`. */
  ghost predicate Rebuilt(m: seq<Byte>, chunks: seq<Chunk>, payload: seq<Byte>, i: nat)
    requires InBounds(chunks, |payload|) && i <= |chunks|
  {
    && Offset(chunks, i) <= |m|
    && m == Decode(chunks[..i], payload) + Zeros(|m| - Offset(chunks, i))
  }

  lemma ImageGrows(chunks: seq<Chunk>, payload: seq<Byte>, i: nat)
    requires InBounds(chunks, |payload|) && i < |chunks|
    ensures Decode(chunks[..i + 1], payload) == Decode(chunks[..i], payload) + DecodeChunk(chunks[i], payload)
    ensures |Decode(chunks[..i], payload)| == Offset(chunks, i)
    ensures |DecodeChunk(chunks[i], payload)| == chunks[i].length
  {
    DecodeLength(chunks, payload, i);
    assert chunks[..i + 1] == chunks[..i] + [chunks[i]];
    DecodeSnoc(chunks[..i], chunks[i], payload);
  }

  /** The mapping after chunk `c` is stored at `at`. Zero fills are skipped: mmap supplies zero-filled pages. */
  function Stored(m: seq<Byte>, at: nat, payload: seq<Byte>, c: Chunk): seq<Byte>
    requires ChunkOk(c, |payload|) && at + c.length <= |m|
  {
    if c.fill == 0 then m else m[..at] + DecodeChunk(c, payload) + m[at + c.length..]
  }

  /** Storing chunk `i` extends the image by that chunk. */
  lemma ReplayStep(m: seq<Byte>, m': seq<Byte>, chunks: seq<Chunk>, payload: seq<Byte>, i: nat)
    requires InBounds(chunks, |payload|) && i < |chunks| && Offset(chunks, i + 1) <= |m|
    requires Rebuilt(m, chunks, payload, i)
    requires m' == Stored(m, Offset(chunks, i), payload, chunks[i])
    ensures Rebuilt(m', chunks, payload, i + 1)
  {
    var image, rest := Decode(chunks[..i], payload), |m| - Offset(chunks, i);
    ImageGrows(chunks, payload, i);
    if chunks[i].fill == 0 {
      SkipExtends(image, rest, chunks[i].length);
    } else {
      StoreExtends(image, rest, DecodeChunk(chunks[i], payload));
    }
  }

  /** One turn of the loop. */
  method ReplayChunk(memory: array<Byte>, at: nat, payload: seq<Byte>, c: Chunk)
    requires ChunkOk(c, |payload|) && at + c.length <= memory.Length
    modifies memory
    ensures memory[..] == Stored(old(memory[..]), at, payload, c)
  {
    if c.fill < 0 {
      Store(memory, at, payload[c.source..c.source + c.length]);
    } else if c.fill != 0 {
      Store(memory, at, Fill(c.fill, c.length));
    }
  }

  /** The loop over the chunk table. */
  method Replay(memory: array<Byte>, payload: seq<Byte>, chunks: seq<Chunk>)
    requires InBounds(chunks, |payload|) && Offset(chunks, |chunks|) == memory.Length
    requires memory[..] == Zeros(memory.Length)
    modifies memory
    ensures memory[..] == Decode(chunks, payload)
  {
    var destination := 0;
    NothingRebuilt(memory[..], chunks, payload);
    for i := 0 to |chunks|
      invariant destination == Offset(chunks, i)
      invariant Rebuilt(memory[..], chunks, payload, i)
    {
      OffsetBound(chunks, i + 1);
      ReplayNext(memory, destination, payload, chunks, i);
      destination := destination + chunks[i].length;
    }
    ReplayDone(memory[..], chunks, payload);
  }

  method ReplayNext(memory: array<Byte>, destination: nat, payload: seq<Byte>, chunks: seq<Chunk>, i: nat)
    requires InBounds(chunks, |payload|) && i < |chunks| && Offset(chunks, i + 1) <= memory.Length
    requires destination == Offset(chunks, i) && Rebuilt(memory[..], chunks, payload, i)
    modifies memory
    ensures Rebuilt(memory[..], chunks, payload, i + 1)
  {
    ghost var before := memory[..];
    ReplayChunk(memory, destination, payload, chunks[i]);
    ReplayStep(before, memory[..], chunks, payload, i);
  }

  lemma NothingRebuilt(m: seq<Byte>, chunks: seq<Chunk>, payload: seq<Byte>)
    requires InBounds(chunks, |payload|) && m == Zeros(|m|)
    ensures Rebuilt(m, chunks, payload, 0)
  {
  }

  lemma ReplayDone(m: seq<Byte>, chunks: seq<Chunk>, payload: seq<Byte>)
    requires InBounds(chunks, |payload|) && Offset(chunks, |chunks|) == |m| && Rebuilt(m, chunks, payload, |chunks|)
    ensures m == Decode(chunks, payload)
  {
    assert chunks[..|chunks|] == chunks;
  }

  lemma {:induction false} OffsetBound(chunks: seq<Chunk>, k: nat)
    requires k <= |chunks|
    ensures Offset(chunks, k) <= Offset(chunks, |chunks|)
    decreases |chunks| - k
  {
    if k < |chunks| {
      OffsetBound(chunks, k + 1);
    }
  }

  method Compact(data: seq<Byte>) returns (payload: seq<Byte>, chunks: seq<Chunk>)
    ensures InBounds(chunks, |payload|) && Decode(chunks, payload) == data && Offset(chunks, |chunks|) == |data|
  {
    payload, chunks := CompactChunks(data);
    assert chunks[..|chunks|] == chunks;
    DecodeLength(chunks, payload, |chunks|);
  }

  /** Compacting an image and running the constructor gives the image back, in an aligned place, and the destructor
      leaves nothing mapped. */
  method CompactAndLoad(data: seq<Byte>, mapped: nat, k: nat, bits: nat)
    returns (address: nat, reported: nat, image: seq<Byte>, left: nat)
    requires k <= bits && mapped + |data| + Pow2(k) <= Pow2(bits)
    ensures image == data && reported == |data|
    ensures address % Pow2(k) == 0 && mapped <= address < mapped + Pow2(k)
    ensures left == 0
  {
    var payload, chunks := Compact(data);
    var bundle := new Bundle();
    bundle.Init(Some(mapped), k, bits, |data|, payload, chunks);
    reported, image := bundle.Get(|data|);
    address := bundle.kernel.address;
    bundle.Free(|data|);
    left := bundle.kernel.bytes.Length;
  }
}
