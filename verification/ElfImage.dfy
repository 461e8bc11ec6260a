/** From the loadable segments of an ELF kernel to a flat memory image: the reader of the compact
    bundle, the flat writer, and the raw writer of the firmware bundler. */
module ElfImage {
  import opened Wrappers
  import opened Bits
  import opened Bytes
  import opened CLiterals

  /** A PT_LOAD segment; its file size is the length of `data`. */
  datatype Segment = Segment(vaddr: nat, paddr: nat, data: seq<Byte>)

  /** A parsed file: its entry address and its program headers, of which some are PT_LOAD. */
  datatype Header = Header(load: bool, segment: Segment)

  datatype Elf = Elf(entry: nat, headers: seq<Header>)

  function LoadSegments(headers: seq<Header>): seq<Segment> {
    if headers == [] then []
    else
      var last := headers[|headers| - 1];
      LoadSegments(headers[..|headers| - 1]) + (if last.load then [last.segment] else [])
  }

  /** The segments are those of the loadable headers, each once and in the order of the headers: `indices` says where
      each one comes from. */
  ghost predicate Selects(headers: seq<Header>, segments: seq<Segment>, indices: seq<nat>) {
    && |indices| == |segments|
    && (forall i, j :: 0 <= i < j < |indices| ==> indices[i] < indices[j])
    && (forall i :: 0 <= i < |indices| ==> SelectedFrom(headers, indices[i], segments[i]))
    && (forall k :: 0 <= k < |headers| && headers[k].load ==> k in indices)
  }

  predicate SelectedFrom(headers: seq<Header>, k: nat, segment: Segment) {
    k < |headers| && headers[k].load && headers[k].segment == segment
  }

  lemma SelectNext(headers: seq<Header>, n: nat, segments: seq<Segment>, indices: seq<nat>)
    requires n < |headers| && Selects(headers[..n], segments, indices)
    ensures if headers[n].load then Selects(headers[..n + 1], segments + [headers[n].segment], indices + [n])
            else Selects(headers[..n + 1], segments, indices)
  {
    var next := headers[..n + 1];
    forall i | 0 <= i < |indices| ensures SelectedFrom(next, indices[i], segments[i]) && indices[i] < n {
      assert SelectedFrom(headers[..n], indices[i], segments[i]);
    }
    forall k | 0 <= k < n && next[k].load ensures k in indices {
      assert headers[..n][k] == next[k];
    }
  }

  /** `[s for s in iter_segments() if s['p_type'] == 'PT_LOAD']` */
  method SelectSegments(elf: Elf) returns (segments: seq<Segment>, ghost indices: seq<nat>)
    ensures Selects(elf.headers, segments, indices)
    ensures segments == LoadSegments(elf.headers)
  {
    segments, indices := [], [];
    for i := 0 to |elf.headers|
      invariant segments == LoadSegments(elf.headers[..i])
      invariant Selects(elf.headers[..i], segments, indices)
    {
      assert elf.headers[..i + 1][..i] == elf.headers[..i];
      SelectNext(elf.headers, i, segments, indices);
      if elf.headers[i].load {
        segments, indices := segments + [elf.headers[i].segment], indices + [i];
      }
    }
    assert elf.headers[..|elf.headers|] == elf.headers;
  }

  /** The function that the contracts name selects exactly the loadable headers. */
  lemma {:induction false} LoadSelects(headers: seq<Header>) returns (indices: seq<nat>)
    ensures Selects(headers, LoadSegments(headers), indices)
  {
    if headers == [] {
      indices := [];
    } else {
      var n := |headers| - 1;
      indices := LoadSelects(headers[..n]);
      SelectNext(headers, n, LoadSegments(headers[..n]), indices);
      assert headers[..n + 1] == headers;
      if headers[n].load {
        indices := indices + [n];
      }
    }
  }

  /** There is one such selection. */
  lemma SelectionUnique(headers: seq<Header>, a: seq<Segment>, xs: seq<nat>, b: seq<Segment>, ys: seq<nat>)
    requires Selects(headers, a, xs) && Selects(headers, b, ys)
    ensures a == b && xs == ys
  {
    forall k ensures k in xs <==> k in ys {
      IndexLoads(headers, a, xs, k);
      IndexLoads(headers, b, ys, k);
    }
    IncreasingUnique(xs, ys);
    forall i | 0 <= i < |a| ensures a[i] == b[i] {
      assert SelectedFrom(headers, xs[i], a[i]) && SelectedFrom(headers, ys[i], b[i]);
    }
  }

  lemma IndexLoads(headers: seq<Header>, segments: seq<Segment>, indices: seq<nat>, k: nat)
    requires Selects(headers, segments, indices)
    ensures k in indices <==> k < |headers| && headers[k].load
  {
    if k in indices {
      var i :| 0 <= i < |indices| && indices[i] == k;
      assert SelectedFrom(headers, indices[i], segments[i]);
    }
  }

  /** Increasing lists with the same members are equal. */
  lemma {:induction false} IncreasingUnique(a: seq<nat>, b: seq<nat>)
    requires forall i, j :: 0 <= i < j < |a| ==> a[i] < a[j]
    requires forall i, j :: 0 <= i < j < |b| ==> b[i] < b[j]
    requires forall k :: k in a <==> k in b
    ensures a == b
  {
    if a == [] || b == [] {
      NothingIn(a);
      NothingIn(b);
    } else {
      var x, y := a[|a| - 1], b[|b| - 1];
      LastIsLargest(a);
      LastIsLargest(b);
      assert x in a && y in b;
      var a', b' := a[..|a| - 1], b[..|b| - 1];
      forall k ensures k in a' <==> k in b' {
        WithoutLargest(a, k);
        WithoutLargest(b, k);
      }
      IncreasingUnique(a', b');
      assert a == a' + [x] && b == b' + [y];
    }
  }

  lemma NothingIn(a: seq<nat>)
    ensures a == [] <==> forall k :: k !in a
  {
    if a != [] {
      assert a[0] in a;
    }
  }

  lemma LastIsLargest(a: seq<nat>)
    requires a != [] && forall i, j :: 0 <= i < j < |a| ==> a[i] < a[j]
    ensures forall k :: k in a ==> k <= a[|a| - 1]
  {
  }

  lemma WithoutLargest(a: seq<nat>, k: nat)
    requires a != [] && forall i, j :: 0 <= i < j < |a| ==> a[i] < a[j]
    ensures k in a[..|a| - 1] <==> k in a && k != a[|a| - 1]
  {
    assert a == a[..|a| - 1] + [a[|a| - 1]];
  }

  /** `p_vaddr & 0xfffffff`. */
  function LoadAddress(vaddr: nat): nat {
    And(vaddr, 0xfffffff, 64)
  }

  lemma LoadAddressIsRemainder(vaddr: nat)
    ensures LoadAddress(vaddr) == vaddr % 0x1000_0000
  {
    assert Pow2(14) == 0x4000;
    Pow2Sum(14, 14);
    AndLowBits(vaddr, 28, 64);
  }

  // ----- what an image is --------------------------------------------------------------------

  /** Where segment `i` starts and ends relative to the load address. */
  function Start(segments: seq<Segment>, load: nat, i: nat): int
    requires i < |segments|
  {
    segments[i].paddr - load
  }

  function End(segments: seq<Segment>, load: nat, i: nat): int
    requires i < |segments|
  {
    segments[i].paddr - load + |segments[i].data|
  }

  /** End of the first `n` segments; 0 when there are none. */
  function Extent(segments: seq<Segment>, load: nat, n: nat): int
    requires n <= |segments|
  {
    if n == 0 then 0 else End(segments, load, n - 1)
  }

  /** The segments are in address order, do not overlap, and none precedes the load address. */
  predicate Ordered(segments: seq<Segment>, load: nat, n: nat)
    requires n <= |segments|
  {
    forall i :: 0 <= i < n ==> Extent(segments, load, i) <= Start(segments, load, i)
  }

  ghost predicate Covered(segments: seq<Segment>, load: nat, n: nat, x: int)
    requires n <= |segments|
  {
    exists i :: 0 <= i < n && Start(segments, load, i) <= x < End(segments, load, i)
  }

  /** Each segment's bytes are at its address relative to the load address, and all other bytes
      are zero. */
  ghost predicate Holds(bytes: seq<Byte>, segments: seq<Segment>, load: nat, n: nat)
    requires n <= |segments|
  {
    && (forall i :: 0 <= i < n ==> HoldsSegment(bytes, segments, load, i))
    && (forall x :: 0 <= x < |bytes| && !Covered(segments, load, n, x) ==> bytes[x] == 0)
  }

  predicate HoldsSegment(bytes: seq<Byte>, segments: seq<Segment>, load: nat, i: nat)
    requires i < |segments|
  {
    && 0 <= Start(segments, load, i) <= End(segments, load, i) <= |bytes|
    && bytes[Start(segments, load, i)..End(segments, load, i)] == segments[i].data
  }

  /** The least multiple of the page size that covers the segments. */
  ghost predicate IsImage(bytes: seq<Byte>, segments: seq<Segment>, load: nat, page: nat)
    requires 0 < page
  {
    && |bytes| % page == 0
    && Extent(segments, load, |segments|) <= |bytes| < Extent(segments, load, |segments|) + page
    && Holds(bytes, segments, load, |segments|)
  }

  /** Such an image is unique, so two writers that both produce one agree byte for byte. */
  lemma ImageUnique(a: seq<Byte>, b: seq<Byte>, segments: seq<Segment>, load: nat, page: nat)
    requires 0 < page && IsImage(a, segments, load, page) && IsImage(b, segments, load, page)
    ensures a == b
  {
    SameMultiple(|a|, |b|, page, Extent(segments, load, |segments|));
    forall x | 0 <= x < |a| ensures a[x] == b[x] {
      if Covered(segments, load, |segments|, x) {
        var i :| 0 <= i < |segments| && Start(segments, load, i) <= x < End(segments, load, i);
        assert HoldsSegment(a, segments, load, i) && HoldsSegment(b, segments, load, i);
        var from, end := Start(segments, load, i), End(segments, load, i);
        assert a[x] == a[from..end][x - from];
        assert b[x] == b[from..end][x - from];
      }
    }
  }

  lemma SameMultiple(x: int, y: int, page: int, low: int)
    requires 0 < page && x % page == 0 && y % page == 0
    requires low <= x < low + page && low <= y < low + page
    ensures x == y
  {
    if x < y {
      SmallMultiple(y, x, page);
    } else {
      SmallMultiple(x, y, page);
    }
  }

  lemma SmallMultiple(x: int, y: int, page: int)
    requires 0 < page && x % page == 0 && y % page == 0 && 0 <= x - y < page
    ensures x == y
  {
    var p, q := x / page, y / page;
    Distribute(page, p, q);
    DivModUnique(x - y, page, p - q, 0);
    DivModUnique(x - y, page, 0, x - y);
  }

  lemma Distribute(page: int, p: int, q: int)
    ensures page * p - page * q == page * (p - q)
  {
  }

  // ----- growing an image --------------------------------------------------------------------

  /** Appending the gap and the bytes of the next segment. */
  lemma HoldsNext(bytes: seq<Byte>, segments: seq<Segment>, load: nat, n: nat)
    requires n < |segments| && |bytes| == Extent(segments, load, n) && Holds(bytes, segments, load, n)
    requires |bytes| <= Start(segments, load, n)
    ensures var next := bytes + Zeros(Start(segments, load, n) - |bytes|) + segments[n].data;
            |next| == Extent(segments, load, n + 1) && Holds(next, segments, load, n + 1)
  {
    var next := bytes + Zeros(Start(segments, load, n) - |bytes|) + segments[n].data;
    forall i | 0 <= i < n + 1 ensures HoldsSegment(next, segments, load, i) {
      if i < n {
        assert HoldsSegment(bytes, segments, load, i);
        var from, end := Start(segments, load, i), End(segments, load, i);
        assert next[from..end] == bytes[from..end];
      } else {
        assert next[Start(segments, load, n)..] == segments[n].data;
      }
    }
    forall x | 0 <= x < |next| && !Covered(segments, load, n + 1, x) ensures next[x] == 0 {
      var from, end := Start(segments, load, n), End(segments, load, n);
      assert !(from <= x < end);
    }
  }

  /** Padding with zeros changes nothing. */
  lemma HoldsPadded(bytes: seq<Byte>, segments: seq<Segment>, load: nat, n: nat, padding: nat)
    requires n <= |segments| && Holds(bytes, segments, load, n)
    ensures Holds(bytes + Zeros(padding), segments, load, n)
  {
    var padded := bytes + Zeros(padding);
    forall i | 0 <= i < n ensures HoldsSegment(padded, segments, load, i) {
      assert HoldsSegment(bytes, segments, load, i);
      var from, end := Start(segments, load, i), End(segments, load, i);
      assert padded[from..end] == bytes[from..end];
    }
  }

  lemma PaddedToPage(n: int, page: nat)
    requires 0 < page
    ensures (n + (-n) % page) % page == 0 && (-n) % page < page
  {
    var q, r := (-n) / page, (-n) % page;
    assert -n == page * q + r;
    assert n + r == page * (-q) + 0;
    DivModUnique(n + r, page, -q, 0);
  }

  // ----- read_elf_bundle -----------------------------------------------------------------------

  datatype Image = Image(bytes: seq<Byte>, load: nat, entry: nat)

  /** The loop of `read_elf_bundle`: the segments one after the other, with zeros between them. */
  method ReadSegments(segments: seq<Segment>, load: nat) returns (r: Result<seq<Byte>>)
    ensures r.Ok? <==> Ordered(segments, load, |segments|)
    ensures r.Ok? ==> |r.value| == Extent(segments, load, |segments|) && Holds(r.value, segments, load, |segments|)
  {
    var data: seq<Byte> := [];
    for i := 0 to |segments|
      invariant |data| == Extent(segments, load, i)
      invariant Ordered(segments, load, i) && Holds(data, segments, load, i)
    {
      var offset := segments[i].paddr - load;
      if offset < |data| {
        assert !Ordered(segments, load, |segments|);
        return Err;
      }
      HoldsNext(data, segments, load, i);
      data := data + Zeros(offset - |data|);
      data := data + segments[i].data;
    }
    r := Ok(data);
  }

  lemma PaddedIsImage(data: seq<Byte>, segments: seq<Segment>, load: nat, page: nat)
    requires 0 < page && |data| == Extent(segments, load, |segments|) && Holds(data, segments, load, |segments|)
    ensures IsImage(data + Zeros((-|data|) % page), segments, load, page)
  {
    PaddedToPage(|data|, page);
    HoldsPadded(data, segments, load, |segments|, (-|data|) % page);
  }

  /** Accepts exactly the ordered segment lists, and then returns their image. */
  method ReadElfBundle(elf: Elf, page: nat) returns (r: Result<Image>)
    requires 0 < page
    ensures var segments := LoadSegments(elf.headers);
            r.Ok? <==> segments != [] && Ordered(segments, LoadAddress(segments[0].vaddr), |segments|)
    ensures r.Ok? ==> r.value.load == LoadAddress(LoadSegments(elf.headers)[0].vaddr) && r.value.entry == elf.entry
    ensures r.Ok? ==> IsImage(r.value.bytes, LoadSegments(elf.headers), r.value.load, page)
  {
    var segments, indices := SelectSegments(elf);
    if segments == [] {
      return Err;
    }
    var load := LoadAddress(segments[0].vaddr);
    var data := ReadSegments(segments, load);
    if data.Err? {
      return Err;
    }
    PaddedIsImage(data.value, segments, load, page);
    r := Ok(Image(data.value + Zeros((-|data.value|) % page), load, elf.entry));
  }

  // ----- write_elf_cbundle ----------------------------------------------------------------------

  /** int(a / b): division that truncates toward zero. */
  function Truncated(a: int, b: nat): int
    requires 0 < b
  {
    if a >= 0 then a / b else -((-a) / b)
  }

  function Rounded(total: int, page: nat): int
    requires 0 < page
  {
    Truncated(total + page - 1, page) * page
  }

  /** The final padding is never negative, and for a non-negative total it fills the last page. */
  lemma RoundedBounds(total: int, page: nat)
    requires 0 < page
    ensures total <= Rounded(total, page) && Rounded(total, page) % page == 0
    ensures 0 <= total ==> Rounded(total, page) < total + page
  {
    var a := total + page - 1;
    var q := Truncated(a, page);
    if a >= 0 {
      assert a == page * q + a % page;
    } else {
      var m := (-a) / page;
      assert -a == page * m + (-a) % page;
      assert q == -m;
      assert page * q == -(page * m);
    }
    assert q * page == page * q + 0;
    DivModUnique(q * page, page, q, 0);
  }

  function Positive(x: int): nat { if x > 0 then x else 0 }

  /** What the flat writer emits for the first `n` segments: gaps are measured between
      neighbours, and a negative gap emits nothing. */
  function FlatBytes(segments: seq<Segment>, n: nat): seq<Byte>
    requires n <= |segments|
  {
    if n == 0 then []
    else if n == 1 then segments[0].data
    else
      var gap := segments[n - 1].paddr - segments[n - 2].paddr - |segments[n - 2].data|;
      FlatBytes(segments, n - 1) + Zeros(Positive(gap)) + segments[n - 1].data
  }

  /** The flat writer. Its per-segment assertion holds for every segment list whose first physical
      address is the load address, and for no other. */
  method WriteElfBundle(elf: Elf, page: nat) returns (r: Result<(string, nat, nat)>)
    requires 0 < page
    ensures var segments := LoadSegments(elf.headers);
            r.Ok? <==> segments != [] && segments[0].paddr == LoadAddress(segments[0].vaddr)
    ensures r.Ok? ==> r.value.1 == LoadAddress(LoadSegments(elf.headers)[0].vaddr) && r.value.2 == elf.entry
    ensures r.Ok? ==> Spells(r.value.0, FlatImage(LoadSegments(elf.headers), page))
  {
    var segments, indices := SelectSegments(elf);
    var text := WriteSegments(segments, page);
    if text.Err? {
      return Err;
    }
    r := Ok((text.value.0, text.value.1, elf.entry));
  }

  /** Zeros written after the bytes of the first `n` segments. */
  method WriteZeros(out: string, bytes: seq<Byte>, padding: int, col: nat) returns (out': string)
    requires Spells(out, bytes)
    ensures Spells(out', bytes + Zeros(Positive(padding)))
  {
    EmitSpells(Zeros(Positive(padding)), col);
    SpellsConcat(out, bytes, Emit(Zeros(Positive(padding)), col), Zeros(Positive(padding)));
    out' := WritePadding(out, padding, col);
  }

  /** The loop of the flat writer before segment `i`. */
  ghost predicate FlatUpto(segments: seq<Segment>, i: nat, load: nat, total: int, out: string) {
    && i <= |segments| && Spells(out, FlatBytes(segments, i))
    && (i == 0 ==> total == 0)
    && (0 < i ==> load == LoadAddress(segments[0].vaddr) == segments[0].paddr && total == Extent(segments, load, i))
  }

  /** One turn of the loop; the assertion in it can only fail for the first segment. */
  method WriteNext(segments: seq<Segment>, i: nat, load: nat, total: int, out: string, col: nat)
    returns (ok: bool, load': nat, total': int, out': string, col': nat)
    requires i < |segments| && FlatUpto(segments, i, load, total, out)
    ensures ok <==> segments[0].paddr == LoadAddress(segments[0].vaddr)
    ensures ok ==> FlatUpto(segments, i + 1, load', total', out')
  {
    load', total', out', col' := load, total, out, col;
    if i == 0 {
      load' := LoadAddress(segments[0].vaddr);
    } else {
      var padding := segments[i].paddr - segments[i - 1].paddr - |segments[i - 1].data|;
      out' := WriteZeros(out, FlatBytes(segments, i), padding, col);
      total' := total + padding;
    }
    if segments[i].paddr - load' != total' {
      return false, load', total', out', col';
    }
    ok := true;
    FlatStep(segments, i, out', col);
    out', col' := WriteBytes(out', segments[i].data, col);
    total' := total' + |segments[i].data|;
  }

  method WriteSegments(segments: seq<Segment>, page: nat) returns (r: Result<(string, nat)>)
    requires 0 < page
    ensures r.Ok? <==> segments != [] && segments[0].paddr == LoadAddress(segments[0].vaddr)
    ensures r.Ok? ==> r.value.1 == LoadAddress(segments[0].vaddr)
    ensures r.Ok? ==> Spells(r.value.0, FlatImage(segments, page))
  {
    var out: string := [];
    var col, total, load, ok := 0, 0, 0, true;
    EmitSpells([], 0);
    for i := 0 to |segments|
      invariant FlatUpto(segments, i, load, total, out)
      invariant 0 < i ==> segments[0].paddr == LoadAddress(segments[0].vaddr)
    {
      ok, load, total, out, col := WriteNext(segments, i, load, total, out, col);
      if !ok {
        return Err;
      }
    }
    if segments == [] {
      return Err;
    }
    out := WriteZeros(out, FlatBytes(segments, |segments|), Rounded(total, page) - total, col);
    r := Ok((out, load));
  }

  lemma FlatStep(segments: seq<Segment>, i: nat, out: string, col: nat)
    requires i < |segments|
    requires i == 0 ==> Spells(out, [])
    requires 0 < i ==>
      Spells(out, FlatBytes(segments, i) + Zeros(Positive(segments[i].paddr - segments[i - 1].paddr - |segments[i - 1].data|)))
    ensures Spells(out + Emit(segments[i].data, col), FlatBytes(segments, i + 1))
  {
    EmitSpells(segments[i].data, col);
    if i == 0 {
      SpellsConcat(out, [], Emit(segments[i].data, col), segments[i].data);
      assert [] + segments[i].data == segments[i].data;
    } else {
      SpellsConcat(
        out, FlatBytes(segments, i) + Zeros(Positive(segments[i].paddr - segments[i - 1].paddr - |segments[i - 1].data|)),
        Emit(segments[i].data, col), segments[i].data);
    }
  }

  /** All the bytes the flat writer emits. */
  function FlatImage(segments: seq<Segment>, page: nat): seq<Byte>
    requires 0 < page && segments != []
  {
    var total := Extent(segments, segments[0].paddr, |segments|);
    FlatBytes(segments, |segments|) + Zeros(Positive(Rounded(total, page) - total))
  }

  lemma {:induction false} FlatHolds(segments: seq<Segment>, n: nat)
    requires 1 <= n <= |segments| && Ordered(segments, segments[0].paddr, n)
    ensures |FlatBytes(segments, n)| == Extent(segments, segments[0].paddr, n)
    ensures Holds(FlatBytes(segments, n), segments, segments[0].paddr, n)
  {
    var load := segments[0].paddr;
    if n == 1 {
      HoldsNext([], segments, load, 0);
      assert [] + Zeros(0) + segments[0].data == segments[0].data;
    } else {
      FlatHolds(segments, n - 1);
      assert Extent(segments, load, n - 1) <= Start(segments, load, n - 1);
      HoldsNext(FlatBytes(segments, n - 1), segments, load, n - 1);
    }
  }

  /** Whenever both writers accept, they produce the same image. */
  lemma WritersAgree(segments: seq<Segment>, page: nat, image: seq<Byte>)
    requires 0 < page && segments != []
    requires Ordered(segments, segments[0].paddr, |segments|)
    requires IsImage(image, segments, segments[0].paddr, page)
    ensures FlatImage(segments, page) == image
  {
    FlatIsImage(segments, page);
    ImageUnique(FlatImage(segments, page), image, segments, segments[0].paddr, page);
  }

  /** How much more the flat writer emits than the addresses call for. */
  lemma {:induction false} FlatExcess(segments: seq<Segment>, n: nat)
    requires 1 <= n <= |segments|
    ensures Extent(segments, segments[0].paddr, n) <= |FlatBytes(segments, n)|
    ensures |FlatBytes(segments, n)| == Extent(segments, segments[0].paddr, n) <==>
              Ordered(segments, segments[0].paddr, n)
  {
    var load := segments[0].paddr;
    if n > 1 {
      FlatExcess(segments, n - 1);
      var gap := segments[n - 1].paddr - segments[n - 2].paddr - |segments[n - 2].data|;
      assert Start(segments, load, n - 1) - Extent(segments, load, n - 1) == gap;
      assert Ordered(segments, load, n) <==> Ordered(segments, load, n - 1) && 0 <= gap;
    }
  }

  /** The flat writer does not check for overlap. What it emits has the rounded size if and only
      if the segments are ordered, that is, if and only if the reader accepts them. */
  lemma FlatSizeExact(segments: seq<Segment>, page: nat)
    requires 0 < page && segments != []
    ensures var total := Extent(segments, segments[0].paddr, |segments|);
            |FlatImage(segments, page)| == Rounded(total, page) <==>
              Ordered(segments, segments[0].paddr, |segments|)
  {
    FlatExcess(segments, |segments|);
    RoundedBounds(Extent(segments, segments[0].paddr, |segments|), page);
  }

  /** It emits the image of the segments if and only if they are ordered. */
  lemma FlatImageExact(segments: seq<Segment>, page: nat)
    requires 0 < page && segments != []
    ensures IsImage(FlatImage(segments, page), segments, segments[0].paddr, page) <==>
              Ordered(segments, segments[0].paddr, |segments|)
  {
    if Ordered(segments, segments[0].paddr, |segments|) {
      FlatIsImage(segments, page);
    } else {
      OverlapIsNoImage(segments, page);
    }
  }

  lemma FlatIsImage(segments: seq<Segment>, page: nat)
    requires 0 < page && segments != [] && Ordered(segments, segments[0].paddr, |segments|)
    ensures IsImage(FlatImage(segments, page), segments, segments[0].paddr, page)
  {
    var load, n := segments[0].paddr, |segments|;
    FlatHolds(segments, n);
    RoundedBounds(Extent(segments, load, n), page);
    HoldsPadded(FlatBytes(segments, n), segments, load, n, Rounded(Extent(segments, load, n), page) - Extent(segments, load, n));
  }

  lemma OverlapIsNoImage(segments: seq<Segment>, page: nat)
    requires 0 < page && segments != [] && !Ordered(segments, segments[0].paddr, |segments|)
    ensures !IsImage(FlatImage(segments, page), segments, segments[0].paddr, page)
  {
    var load, image := segments[0].paddr, FlatImage(segments, page);
    var total := Extent(segments, load, |segments|);
    FlatSizeExact(segments, page);
    RoundedBounds(total, page);
    assert IsImage(image, segments, load, page) ==> HoldsSegment(image, segments, load, |segments| - 1);
    if 0 <= total && |image| % page == 0 && total <= |image| < total + page {
      SameMultiple(|image|, Rounded(total, page), page, total);
    }
  }

  /** Two segments of which the second starts inside the first. */
  function Overlapping(): seq<Segment> {
    [Segment(0, 0, [1, 2]), Segment(1, 1, [3])]
  }

  /** The flat writer accepts them, and what it emits is not their image. */
  lemma OverlapAccepted(page: nat)
    requires 0 < page
    ensures Overlapping()[0].paddr == LoadAddress(Overlapping()[0].vaddr)
    ensures !IsImage(FlatImage(Overlapping(), page), Overlapping(), 0, page)
  {
    var segments := Overlapping();
    LoadAddressIsRemainder(0);
    assert Extent(segments, 0, 1) == 2 && Start(segments, 0, 1) == 1;
    FlatImageExact(segments, page);
  }

  // ----- write_raw_cbundle -------------------------------------------------------------------

  /** The raw writer emits the file and zeros up to the next page boundary. */
  method WriteRawBundle(data: seq<Byte>, page: nat) returns (out: string)
    requires 0 < page
    ensures exists padding: nat ::
              && padding < page && (|data| + padding) % page == 0
              && Spells(out, data + Zeros(padding))
  {
    var col := 0;
    out, col := WriteBytes([], data, 0);
    assert out == Emit(data, 0);
    var padding := Rounded(|data|, page) - |data|;
    RoundedBounds(|data|, page);
    PaddedSpells(data, padding, col);
    out := WritePadding(out, padding, col);
  }

  lemma PaddedSpells(data: seq<Byte>, padding: nat, col: nat)
    ensures Spells(Emit(data, 0) + Emit(Zeros(padding), col), data + Zeros(padding))
  {
    EmitSpells(data, 0);
    EmitSpells(Zeros(padding), col);
    SpellsConcat(Emit(data, 0), data, Emit(Zeros(padding), col), Zeros(padding));
  }
}
