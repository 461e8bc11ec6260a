/** The compact kernel bundle from the ELF file to the loaded kernel. */
module Firmware {
  import opened Wrappers
  import opened Bits
  import opened Bytes
  import opened CLiterals
  import opened CompactBundle
  import opened ChunkTable
  import opened KernelLoader
  import opened ElfImage

  /** The generated file: the payload's literals, the chunk table, the image size and the two addresses. */
  datatype Generated = Generated(literals: string, table: string, size: nat, load: nat, entry: nat)

  /** The payload and the chunks that the compiler puts into the library. */
  ghost predicate Compiled(file: Generated, payload: seq<Byte>, chunks: seq<Chunk>) {
    Denotes(file.literals, payload) && ReadTable(file.table) == Some(chunks)
  }

  /** The file is written for every kernel the reader accepts whose image is not empty. What is compiled from its text
      decodes to the image of the kernel's segments. */
  method WriteCompact(elf: Elf, page: nat) returns (r: Result<Generated>, payload: seq<Byte>, chunks: seq<Chunk>)
    requires 0 < page
    ensures var segments := LoadSegments(elf.headers);
            r.Ok? <==> segments != [] && Ordered(segments, LoadAddress(segments[0].vaddr), |segments|)
                       && 0 < Extent(segments, LoadAddress(segments[0].vaddr), |segments|)
    ensures r.Ok? ==> r.value.load == LoadAddress(LoadSegments(elf.headers)[0].vaddr) && r.value.entry == elf.entry
    ensures r.Ok? ==> Compiled(r.value, payload, chunks) && InBounds(chunks, |payload|)
    ensures r.Ok? ==> IsImage(Decode(chunks, payload), LoadSegments(elf.headers), r.value.load, page)
    ensures r.Ok? ==> Offset(chunks, |chunks|) == r.value.size
  {
    payload, chunks := [], [];
    var read := ReadElfBundle(elf, page);
    if read.Err? {
      return Err, payload, chunks;
    }
    var image := read.value;
    EmptyImage(LoadSegments(elf.headers), image.load, image.bytes, page);
    if image.bytes == [] {
      return Err, payload, chunks;
    }
    payload, chunks := Compact(image.bytes);
    var literals := WritePayload(payload);
    var table := WriteTable(chunks);
    r := Ok(Generated(literals, table, |image.bytes|, image.load, image.entry));
  }

  lemma EmptyImage(segments: seq<Segment>, load: nat, image: seq<Byte>, page: nat)
    requires 0 < page && segments != [] && IsImage(image, segments, load, page)
    ensures image == [] <==> Extent(segments, load, |segments|) <= 0
  {
    if Extent(segments, load, |segments|) <= 0 {
      SameMultiple(|image|, 0, page, Extent(segments, load, |segments|));
    }
  }

  /** The size of the image of accepted segments: their extent in whole pages. */
  function ImageSize(segments: seq<Segment>, page: nat): (size: nat)
    requires 0 < page && segments != [] && 0 < Extent(segments, LoadAddress(segments[0].vaddr), |segments|)
    ensures 0 < size && size % page == 0
  {
    var extent := Extent(segments, LoadAddress(segments[0].vaddr), |segments|);
    RoundedBounds(extent, page);
    Rounded(extent, page)
  }

  lemma ImageHasSize(segments: seq<Segment>, image: seq<Byte>, page: nat)
    requires 0 < page && segments != [] && 0 < Extent(segments, LoadAddress(segments[0].vaddr), |segments|)
    requires IsImage(image, segments, LoadAddress(segments[0].vaddr), page)
    ensures |image| == ImageSize(segments, page)
  {
    var extent := Extent(segments, LoadAddress(segments[0].vaddr), |segments|);
    RoundedBounds(extent, page);
    SameMultiple(|image|, Rounded(extent, page), page, extent);
  }

  lemma DecodedSize(chunks: seq<Chunk>, payload: seq<Byte>)
    requires InBounds(chunks, |payload|)
    ensures |Decode(chunks, payload)| == Offset(chunks, |chunks|)
  {
    assert chunks[..|chunks|] == chunks;
    DecodeLength(chunks, payload, |chunks|);
  }

  /** What krunfw_get_kernel hands out: the two addresses, the size, and the mapping it points to. */
  datatype Kernel = Kernel(load: nat, entry: nat, size: nat, address: nat, bytes: seq<Byte>)

  /** mmap returns a range within the address space, or fails. */
  ghost predicate InSpace(mmap: nat -> Option<nat>, bits: nat) {
    forall length: nat :: mmap(length).Some? ==> mmap(length).value + length <= Pow2(bits)
  }

  /** The kernel handed out after mmap, asked for the image and one alignment unit, returned `mapped`: nothing if
      it failed, otherwise the whole image, at an aligned address of the reservation. */
  ghost predicate Loaded(kernel: Kernel, segments: seq<Segment>, mapped: Option<nat>, k: nat)
    requires segments != [] && 0 < Extent(segments, LoadAddress(segments[0].vaddr), |segments|)
  {
    && (kernel.size == 0 <==> mapped.None?)
    && (mapped.Some? ==>
          && IsImage(kernel.bytes, segments, LoadAddress(segments[0].vaddr), Pow2(k))
          && kernel.size == |kernel.bytes| == ImageSize(segments, Pow2(k))
          && kernel.address % Pow2(k) == 0
          && mapped.value <= kernel.address < mapped.value + Pow2(k))
  }

  /** The segments that are accepted: some, in order, and not all empty. */
  predicate Loadable(segments: seq<Segment>) {
    && segments != [] && Ordered(segments, LoadAddress(segments[0].vaddr), |segments|)
    && 0 < Extent(segments, LoadAddress(segments[0].vaddr), |segments|)
  }

  /** The library as it is compiled, with the size its image has. */
  method BuildLibrary(elf: Elf, page: nat) returns (r: Result<Generated>, payload: seq<Byte>, chunks: seq<Chunk>)
    requires 0 < page
    ensures r.Ok? <==> Loadable(LoadSegments(elf.headers))
    ensures r.Ok? ==> r.value.load == LoadAddress(LoadSegments(elf.headers)[0].vaddr) && r.value.entry == elf.entry
    ensures r.Ok? ==> InBounds(chunks, |payload|) && Offset(chunks, |chunks|) == r.value.size
    ensures r.Ok? ==> IsImage(Decode(chunks, payload), LoadSegments(elf.headers), r.value.load, page)
    ensures r.Ok? ==> r.value.size == ImageSize(LoadSegments(elf.headers), page)
  {
    r, payload, chunks := WriteCompact(elf, page);
    if r.Ok? {
      ImageHasSize(LoadSegments(elf.headers), Decode(chunks, payload), page);
      DecodedSize(chunks, payload);
    }
  }

  /** Loading the library and asking it for the kernel, when mmap returns `mapped`. */
  method LoadLibrary(file: Generated, payload: seq<Byte>, chunks: seq<Chunk>, mapped: Option<nat>, k: nat, bits: nat)
    returns (kernel: Kernel)
    requires k <= bits && (mapped.Some? ==> mapped.value + file.size + Pow2(k) <= Pow2(bits))
    requires InBounds(chunks, |payload|) && Offset(chunks, |chunks|) == file.size && 0 < file.size
    ensures kernel.load == file.load && kernel.entry == file.entry && (kernel.size == 0 <==> mapped.None?)
    ensures mapped.Some? ==>
              && kernel.bytes == Decode(chunks, payload) && kernel.size == |kernel.bytes| == file.size
              && kernel.address % Pow2(k) == 0 && mapped.value <= kernel.address < mapped.value + Pow2(k)
  {
    var bundle := new Bundle();
    bundle.Init(mapped, k, bits, file.size, payload, chunks);
    var size, bytes := bundle.Get(file.size);
    var address := if bundle.kernel == null then 0 else bundle.kernel.address;
    kernel := Kernel(file.load, file.entry, size, address, bytes);
  }

  /** From the ELF file to guest memory: the kernel is loaded if and only if mmap returns an address for the length
      the constructor asks for, whatever that address is. */
  method BuildAndLoad(elf: Elf, mmap: nat -> Option<nat>, k: nat, bits: nat) returns (r: Result<Kernel>)
    requires k <= bits && InSpace(mmap, bits)
    ensures r.Ok? <==> Loadable(LoadSegments(elf.headers))
    ensures r.Ok? ==> r.value.load == LoadAddress(LoadSegments(elf.headers)[0].vaddr) && r.value.entry == elf.entry
    ensures r.Ok? ==>
              var segments := LoadSegments(elf.headers);
              Loaded(r.value, segments, mmap(ImageSize(segments, Pow2(k)) + Pow2(k)), k)
  {
    var file, payload, chunks := BuildLibrary(elf, Pow2(k));
    if file.Err? {
      return Err;
    }
    var mapped := mmap(file.value.size + Pow2(k));
    var kernel := LoadLibrary(file.value, payload, chunks, mapped, k, bits);
    r := Ok(kernel);
  }
}
