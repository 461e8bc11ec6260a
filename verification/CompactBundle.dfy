/** Run-length compaction of a kernel image: `compact_chunks` of the firmware bundler. */
module CompactBundle {
  import opened Wrappers
  import opened Bytes

  // An image becomes a payload of literal bytes and a list of chunks. A chunk with a negative
  // fill copies `length` payload bytes from `source`; any other chunk repeats the fill byte.

  const MIN_RUN: nat := 256

  datatype Chunk = Chunk(length: nat, source: nat, fill: int)

  predicate Literal(c: Chunk) { c.fill < 0 }

  // ----- what a chunk list means --------------------------------------------------------

  /** A literal chunk reads inside the payload; a fill is a byte. */
  predicate ChunkOk(c: Chunk, payloadSize: nat) {
    if Literal(c) then c.source + c.length <= payloadSize else c.fill < 256
  }

  predicate InBounds(chunks: seq<Chunk>, payloadSize: nat) {
    forall k :: 0 <= k < |chunks| ==> ChunkOk(chunks[k], payloadSize)
  }

  function DecodeChunk(c: Chunk, payload: seq<Byte>): (r: seq<Byte>)
    requires ChunkOk(c, |payload|)
    ensures |r| == c.length
  {
    if Literal(c) then payload[c.source..c.source + c.length] else Fill(c.fill, c.length)
  }

  function Decode(chunks: seq<Chunk>, payload: seq<Byte>): seq<Byte>
    requires InBounds(chunks, |payload|)
  {
    if chunks == [] then []
    else Decode(chunks[..|chunks| - 1], payload) + DecodeChunk(chunks[|chunks| - 1], payload)
  }

  /** Where chunk `k` starts in the image. */
  function Offset(chunks: seq<Chunk>, k: nat): nat
    requires k <= |chunks|
  {
    if k == 0 then 0 else Offset(chunks, k - 1) + chunks[k - 1].length
  }

  /** How many payload bytes the literals among the first `k` chunks copy. */
  function LiteralBytes(chunks: seq<Chunk>, k: nat): nat
    requires k <= |chunks|
  {
    if k == 0 then 0
    else LiteralBytes(chunks, k - 1) + if Literal(chunks[k - 1]) then chunks[k - 1].length else 0
  }

  /** Literal sources follow each other and use up the payload. */
  predicate Tiles(chunks: seq<Chunk>, payloadSize: nat) {
    && (forall k :: 0 <= k < |chunks| && Literal(chunks[k]) ==> chunks[k].source == LiteralBytes(chunks, k))
    && LiteralBytes(chunks, |chunks|) == payloadSize
  }

  predicate LongFills(chunks: seq<Chunk>) {
    forall k :: 0 <= k < |chunks| && !Literal(chunks[k]) ==> MIN_RUN <= chunks[k].length
  }

  /** No chunk is empty, fills have no source, and neighbouring literals are merged. */
  predicate Merged(chunks: seq<Chunk>) {
    chunks == [] ||
    var last := |chunks| - 1;
    && Merged(chunks[..last])
    && 0 < chunks[last].length
    && (if Literal(chunks[last]) then last == 0 || !Literal(chunks[last - 1]) else chunks[last].source == 0)
  }

  // ----- runs ---------------------------------------------------------------------------

  predicate Constant(data: seq<Byte>, from: nat, to: nat)
    requires from <= to <= |data|
  {
    forall i :: from <= i < to ==> data[i] == data[from]
  }

  /** 256 equal bytes start at `i`: what the pattern of the source needs to match there. */
  predicate LongAt(data: seq<Byte>, i: nat) {
    i + MIN_RUN <= |data| && Constant(data, i, i + MIN_RUN)
  }

  predicate MaximalRun(data: seq<Byte>, from: nat, to: nat) {
    && from < to <= |data|
    && Constant(data, from, to)
    && (from == 0 || data[from - 1] != data[from])
    && (to == |data| || data[to] != data[from])
  }

  predicate LongRun(data: seq<Byte>, from: nat, to: nat) {
    MaximalRun(data, from, to) && from + MIN_RUN <= to
  }

  /** Byte `i` lies in some block of 256 equal bytes. */
  ghost predicate Compressible(data: seq<Byte>, i: nat) {
    exists s: nat :: s <= i < s + MIN_RUN && LongAt(data, s)
  }

  /** How many of the first `n` bytes lie in no such block. */
  ghost function Incompressible(data: seq<Byte>, n: nat): nat {
    if n == 0 then 0 else Incompressible(data, n - 1) + if Compressible(data, n - 1) then 0 else 1
  }

  // ----- the pattern search of the source ---------------------------------------------------

  /** End of the greedy match of one byte and its repetitions at `i`. */
  method RunEnd(data: seq<Byte>, i: nat) returns (end: nat)
    requires i < |data|
    ensures i < end <= |data| && Constant(data, i, end)
    ensures end == |data| || data[end] != data[i]
  {
    end := i + 1;
    while end < |data| && data[end] == data[i]
      invariant i < end <= |data| && Constant(data, i, end)
    {
      end := end + 1;
    }
  }

  ghost predicate NoMatchIn(data: seq<Byte>, from: nat, end: nat) {
    forall i :: from <= i < end ==> !LongAt(data, i)
  }

  ghost predicate IsNextMatch(data: seq<Byte>, from: nat, m: Option<(nat, nat)>) {
    match m
    case None => NoMatchIn(data, from, |data|)
    case Some((start, end)) =>
      && from <= start && start + MIN_RUN <= end <= |data|
      && NoMatchIn(data, from, start)
      && Constant(data, start, end) && (end == |data| || data[end] != data[start])
  }

  /** The next match at or after `from`: leftmost, then as long as possible. */
  method NextMatch(data: seq<Byte>, from: nat) returns (m: Option<(nat, nat)>)
    requires from <= |data|
    ensures IsNextMatch(data, from, m)
  {
    var i := from;
    while i < |data|
      invariant from <= i <= |data|
      invariant NoMatchIn(data, from, i)
    {
      var end := RunEnd(data, i);
      if MIN_RUN <= end - i {
        return Some((i, end));
      }
      assert !LongAt(data, i);
      i := i + 1;
    }
    return None;
  }

  // ----- compact_chunks ---------------------------------------------------------------------

  /** The fills among the chunks are exactly the long runs that start before `limit`. */
  ghost predicate FillsAreRuns(data: seq<Byte>, chunks: seq<Chunk>, limit: nat) {
    && (forall k :: 0 <= k < |chunks| && !Literal(chunks[k]) ==> IsRunChunk(data, chunks, k))
    && (forall s, e :: 0 <= s < limit && LongRun(data, s, e) ==> HasFill(chunks, s, e))
  }

  predicate IsRunChunk(data: seq<Byte>, chunks: seq<Chunk>, k: nat)
    requires k < |chunks|
  {
    LongRun(data, Offset(chunks, k), Offset(chunks, k + 1)) && chunks[k].fill == data[Offset(chunks, k)]
  }

  ghost predicate HasFill(chunks: seq<Chunk>, s: nat, e: nat) {
    exists k :: 0 <= k < |chunks| && !Literal(chunks[k]) && Offset(chunks, k) == s && Offset(chunks, k + 1) == e
  }

  /** The loop invariant of compact_chunks: `previous` bytes have been encoded. */
  ghost predicate Encoded(data: seq<Byte>, payload: seq<Byte>, chunks: seq<Chunk>, previous: nat) {
    && previous <= |data|
    && InBounds(chunks, |payload|) && Decode(chunks, payload) == data[..previous]
    && Offset(chunks, |chunks|) == previous
    && Tiles(chunks, |payload|) && LongFills(chunks)
    && FillsAreRuns(data, chunks, previous)
    && |payload| == Incompressible(data, previous)
  }

  /** `previous` is not inside a run. */
  predicate RunBoundary(data: seq<Byte>, previous: nat) {
    previous == 0 || previous >= |data| || data[previous - 1] != data[previous]
  }

  lemma {:induction false} PrefixSums(chunks: seq<Chunk>, c: Chunk, k: nat)
    requires k <= |chunks|
    ensures Offset(chunks + [c], k) == Offset(chunks, k)
    ensures LiteralBytes(chunks + [c], k) == LiteralBytes(chunks, k)
  {
    if k > 0 {
      PrefixSums(chunks, c, k - 1);
    }
  }

  /** Appending to the payload does not disturb chunks that are already in bounds. */
  lemma {:induction false} DecodeExtend(chunks: seq<Chunk>, payload: seq<Byte>, more: seq<Byte>)
    requires InBounds(chunks, |payload|)
    ensures InBounds(chunks, |payload + more|)
    ensures Decode(chunks, payload + more) == Decode(chunks, payload)
  {
    if chunks != [] {
      DecodeExtend(chunks[..|chunks| - 1], payload, more);
    }
  }

  lemma DecodeSnoc(chunks: seq<Chunk>, c: Chunk, payload: seq<Byte>)
    requires InBounds(chunks, |payload|) && ChunkOk(c, |payload|)
    ensures InBounds(chunks + [c], |payload|)
    ensures Decode(chunks + [c], payload) == Decode(chunks, payload) + DecodeChunk(c, payload)
  {
    assert (chunks + [c])[..|chunks|] == chunks;
  }

  predicate EndsWithFill(chunks: seq<Chunk>) {
    Merged(chunks) && (chunks == [] || !Literal(chunks[|chunks| - 1]))
  }

  lemma SnocMerged(chunks: seq<Chunk>, c: Chunk)
    requires Merged(chunks) && 0 < c.length
    requires if Literal(c) then EndsWithFill(chunks) else c.source == 0
    ensures Merged(chunks + [c]) && (Literal(c) || EndsWithFill(chunks + [c]))
  {
    assert (chunks + [c])[..|chunks|] == chunks;
  }

  /** Appending chunk `c` keeps the chunk-list facts that do not mention the image. */
  lemma SnocTiles(chunks: seq<Chunk>, c: Chunk, payloadSize: nat)
    requires Tiles(chunks, payloadSize) && LongFills(chunks)
    requires if Literal(c) then c.source == payloadSize else MIN_RUN <= c.length
    ensures LongFills(chunks + [c])
    ensures Tiles(chunks + [c], payloadSize + if Literal(c) then c.length else 0)
    ensures Offset(chunks + [c], |chunks| + 1) == Offset(chunks, |chunks|) + c.length
    ensures Offset(chunks + [c], |chunks|) == Offset(chunks, |chunks|)
  {
    var all := chunks + [c];
    PrefixSums(chunks, c, |chunks|);
    forall k | 0 <= k < |all| && Literal(all[k]) ensures all[k].source == LiteralBytes(all, k) {
      PrefixSums(chunks, c, k);
      if k < |chunks| {
        assert all[k] == chunks[k];
      }
    }
  }

  /** Fills found before stay where they are. */
  lemma SnocFills(data: seq<Byte>, chunks: seq<Chunk>, c: Chunk, limit: nat, limit': nat)
    requires FillsAreRuns(data, chunks, limit)
    requires !Literal(c) ==> IsRunChunk(data, chunks + [c], |chunks|)
    requires forall s, e :: limit <= s < limit' && LongRun(data, s, e) ==> HasFill(chunks + [c], s, e)
    ensures FillsAreRuns(data, chunks + [c], limit')
  {
    forall k | 0 <= k <= |chunks| ensures Offset(chunks + [c], k) == Offset(chunks, k) {
      PrefixSums(chunks, c, k);
    }
    forall k | 0 <= k < |chunks + [c]| && !Literal((chunks + [c])[k]) ensures IsRunChunk(data, chunks + [c], k) {
      if k < |chunks| {
        assert IsRunChunk(data, chunks, k);
      }
    }
    forall s, e | 0 <= s < limit' && LongRun(data, s, e) ensures HasFill(chunks + [c], s, e) {
      if s < limit {
        assert HasFill(chunks, s, e);
        var k :| 0 <= k < |chunks| && !Literal(chunks[k]) && Offset(chunks, k) == s && Offset(chunks, k + 1) == e;
        assert (chunks + [c])[k] == chunks[k];
      }
    }
  }

  lemma {:induction false} IncompressibleSpan(data: seq<Byte>, from: nat, end: nat)
    requires from <= end
    requires forall i :: from <= i < end ==> !Compressible(data, i)
    ensures Incompressible(data, end) == Incompressible(data, from) + (end - from)
    decreases end
  {
    if from < end {
      IncompressibleSpan(data, from, end - 1);
      assert !Compressible(data, end - 1);
    }
  }

  lemma {:induction false} CompressibleSpan(data: seq<Byte>, from: nat, end: nat)
    requires from <= end
    requires forall i :: from <= i < end ==> Compressible(data, i)
    ensures Incompressible(data, end) == Incompressible(data, from)
    decreases end
  {
    if from < end {
      CompressibleSpan(data, from, end - 1);
      assert Compressible(data, end - 1);
    }
  }

  /** Every byte of a constant stretch of at least 256 bytes is compressible. */
  lemma StretchCompressible(data: seq<Byte>, from: nat, to: nat, i: nat)
    requires from + MIN_RUN <= to <= |data| && Constant(data, from, to) && from <= i < to
    ensures Compressible(data, i)
  {
    var s := if i + MIN_RUN <= to then i else to - MIN_RUN;
    assert LongAt(data, s);
  }

  lemma StretchSpan(data: seq<Byte>, from: nat, end: nat)
    requires from + MIN_RUN <= end <= |data| && Constant(data, from, end)
    ensures Incompressible(data, end) == Incompressible(data, from)
  {
    forall i | from <= i < end ensures Compressible(data, i) {
      StretchCompressible(data, from, end, i);
    }
    CompressibleSpan(data, from, end);
  }

  /** Between a run boundary and the next match no byte is compressible. */
  lemma GapIncompressible(data: seq<Byte>, previous: nat, to: nat, i: nat)
    requires previous <= i < to <= |data| && RunBoundary(data, previous)
    requires NoMatchIn(data, previous, to)
    ensures !Compressible(data, i)
  {
  }

  /** Maximal runs do not overlap. */
  lemma SameRun(data: seq<Byte>, start: nat, end: nat, s: nat, e: nat)
    requires LongRun(data, start, end) && LongRun(data, s, e) && start <= s < end
    ensures s == start && e == end
  {
    assert data[s] == data[start];
  }

  lemma LiteralDecodes(data: seq<Byte>, payload: seq<Byte>, chunks: seq<Chunk>, previous: nat, to: nat)
    requires previous < to <= |data| && InBounds(chunks, |payload|) && Decode(chunks, payload) == data[..previous]
    ensures var literal, c := data[previous..to], Chunk(to - previous, |payload|, -1);
            && InBounds(chunks + [c], |payload + literal|)
            && Decode(chunks + [c], payload + literal) == data[..to]
  {
    var literal := data[previous..to];
    LiteralChunk(payload, literal);
    SnocDecodes(chunks, payload, literal, Chunk(|literal|, |payload|, -1), data[..previous]);
    assert data[..to] == data[..previous] + literal;
  }

  lemma LiteralChunk(payload: seq<Byte>, literal: seq<Byte>)
    requires literal != []
    ensures var c := Chunk(|literal|, |payload|, -1);
            ChunkOk(c, |payload + literal|) && DecodeChunk(c, payload + literal) == literal
  {
    assert (payload + literal)[|payload|..|payload| + |literal|] == literal;
  }

  lemma SnocDecodes(chunks: seq<Chunk>, payload: seq<Byte>, more: seq<Byte>, c: Chunk, image: seq<Byte>)
    requires InBounds(chunks, |payload|) && Decode(chunks, payload) == image && ChunkOk(c, |payload + more|)
    ensures InBounds(chunks + [c], |payload + more|)
    ensures Decode(chunks + [c], payload + more) == image + DecodeChunk(c, payload + more)
  {
    DecodeExtend(chunks, payload, more);
    DecodeSnoc(chunks, c, payload + more);
  }

  lemma LiteralKeepsFills(data: seq<Byte>, chunks: seq<Chunk>, c: Chunk, previous: nat, to: nat)
    requires FillsAreRuns(data, chunks, previous) && Literal(c) && NoMatchIn(data, previous, to)
    ensures FillsAreRuns(data, chunks + [c], to)
  {
    forall s: nat, e: nat | previous <= s < to ensures !LongRun(data, s, e) {
      assert LongRun(data, s, e) ==> LongAt(data, s);
    }
    SnocFills(data, chunks, c, previous, to);
  }

  lemma LiteralCounts(data: seq<Byte>, previous: nat, to: nat)
    requires RunBoundary(data, previous) && previous < to <= |data| && NoMatchIn(data, previous, to)
    ensures Incompressible(data, to) == Incompressible(data, previous) + to - previous
  {
    forall i | previous <= i < to ensures !Compressible(data, i) {
      GapIncompressible(data, previous, to, i);
    }
    IncompressibleSpan(data, previous, to);
  }

  lemma AppendLiteral(data: seq<Byte>, payload: seq<Byte>, chunks: seq<Chunk>, previous: nat, to: nat)
    requires Encoded(data, payload, chunks, previous) && RunBoundary(data, previous) && previous < to <= |data|
    requires NoMatchIn(data, previous, to)
    ensures Encoded(data, payload + data[previous..to], chunks + [Chunk(to - previous, |payload|, -1)], to)
  {
    var literal, c := data[previous..to], Chunk(to - previous, |payload|, -1);
    assert |payload + literal| == |payload| + c.length;
    LiteralDecodes(data, payload, chunks, previous, to);
    SnocTiles(chunks, c, |payload|);
    LiteralKeepsFills(data, chunks, c, previous, to);
    LiteralCounts(data, previous, to);
    EncodedOf(data, payload + literal, chunks + [c], to);
  }

  lemma EncodedOf(data: seq<Byte>, payload: seq<Byte>, chunks: seq<Chunk>, previous: nat)
    requires previous <= |data|
    requires InBounds(chunks, |payload|) && Decode(chunks, payload) == data[..previous]
    requires Offset(chunks, |chunks|) == previous
    requires Tiles(chunks, |payload|) && LongFills(chunks)
    requires FillsAreRuns(data, chunks, previous)
    requires |payload| == Incompressible(data, previous)
    ensures Encoded(data, payload, chunks, previous)
  {
  }

  lemma RunKeepsFills(data: seq<Byte>, chunks: seq<Chunk>, c: Chunk, start: nat, end: nat)
    requires FillsAreRuns(data, chunks, start) && LongRun(data, start, end)
    requires c.fill == data[start]
    requires Offset(chunks + [c], |chunks|) == start && Offset(chunks + [c], |chunks| + 1) == end
    ensures FillsAreRuns(data, chunks + [c], end)
  {
    var all := chunks + [c];
    assert IsRunChunk(data, all, |chunks|);
    forall s, e | start <= s < end && LongRun(data, s, e) ensures HasFill(all, s, e) {
      SameRun(data, start, end, s, e);
      assert !Literal(all[|chunks|]) && Offset(all, |chunks|) == s && Offset(all, |chunks| + 1) == e;
    }
    SnocFills(data, chunks, c, start, end);
  }

  lemma FillDecodes(data: seq<Byte>, payload: seq<Byte>, chunks: seq<Chunk>, start: nat, end: nat)
    requires InBounds(chunks, |payload|) && LongRun(data, start, end) && Decode(chunks, payload) == data[..start]
    ensures var c := Chunk(end - start, 0, data[start]);
            InBounds(chunks + [c], |payload|) && Decode(chunks + [c], payload) == data[..end]
  {
  }

  lemma AppendFill(data: seq<Byte>, payload: seq<Byte>, chunks: seq<Chunk>, start: nat, end: nat)
    requires Encoded(data, payload, chunks, start) && LongRun(data, start, end)
    ensures Encoded(data, payload, chunks + [Chunk(end - start, 0, data[start])], end)
  {
    var c := Chunk(end - start, 0, data[start]);
    FillDecodes(data, payload, chunks, start, end);
    SnocTiles(chunks, c, |payload|);
    RunKeepsFills(data, chunks, c, start, end);
    StretchSpan(data, start, end);
  }

  /** Emits the bytes before a match, or the rest of the image, as one literal if there are any. */
  method EmitLiteral(data: seq<Byte>, payload: seq<Byte>, chunks: seq<Chunk>, previous: nat, end: nat)
    returns (payload': seq<Byte>, chunks': seq<Chunk>)
    requires Encoded(data, payload, chunks, previous) && RunBoundary(data, previous) && EndsWithFill(chunks)
    requires previous <= end <= |data| && NoMatchIn(data, previous, end)
    ensures Encoded(data, payload', chunks', end) && Merged(chunks')
  {
    payload', chunks' := payload, chunks;
    if previous < end {
      AppendLiteral(data, payload, chunks, previous, end);
      SnocMerged(chunks, Chunk(end - previous, |payload|, -1));
      chunks' := chunks + [Chunk(end - previous, |payload|, -1)];
      payload' := payload + data[previous..end];
    }
  }

  /** Between matches: everything before `previous` is encoded, and `m` is the next match. */
  ghost predicate AtMatch(
    data: seq<Byte>, payload: seq<Byte>, chunks: seq<Chunk>, previous: nat, m: Option<(nat, nat)>)
  {
    Encoded(data, payload, chunks, previous) && RunBoundary(data, previous) && EndsWithFill(chunks)
    && IsNextMatch(data, previous, m)
  }

  /** One turn of the loop over the matches. */
  method EncodeMatch(data: seq<Byte>, payload: seq<Byte>, chunks: seq<Chunk>, previous: nat, start: nat, end: nat)
    returns (payload': seq<Byte>, chunks': seq<Chunk>, next: Option<(nat, nat)>)
    requires AtMatch(data, payload, chunks, previous, Some((start, end)))
    ensures AtMatch(data, payload', chunks', end, next)
  {
    MatchIsLongRun(data, previous, start, end);
    payload', chunks' := EmitLiteral(data, payload, chunks, previous, start);
    AppendFill(data, payload', chunks', start, end);
    SnocMerged(chunks', Chunk(end - start, 0, data[start]));
    chunks' := chunks' + [Chunk(end - start, 0, data[start])];
    next := NextMatch(data, end);
  }

  lemma NothingEncoded(data: seq<Byte>)
    ensures Encoded(data, [], [], 0)
  {}

  /** The encoder. Its output decodes to the image, its fills are exactly the maximal runs of at
      least 256 equal bytes, its literals tile the payload in order, and the payload holds just
      the bytes that lie in no such run. */
  method CompactChunks(data: seq<Byte>) returns (payload: seq<Byte>, chunks: seq<Chunk>)
    ensures InBounds(chunks, |payload|) && Decode(chunks, payload) == data
    ensures Tiles(chunks, |payload|) && LongFills(chunks) && Merged(chunks)
    ensures FillsAreRuns(data, chunks, |data|)
    ensures |payload| == Incompressible(data, |data|)
  {
    payload, chunks := [], [];
    var previous := 0;
    var next := NextMatch(data, 0);
    NothingEncoded(data);
    while next.Some?
      invariant AtMatch(data, payload, chunks, previous, next)
      decreases |data| - previous
    {
      var (start, end) := next.value;
      payload, chunks, next := EncodeMatch(data, payload, chunks, previous, start, end);
      previous := end;
    }
    payload, chunks := EmitLiteral(data, payload, chunks, previous, |data|);
    assert data[..|data|] == data;
  }

  /** The leftmost match after a run boundary is a whole maximal run. */
  lemma MatchIsLongRun(data: seq<Byte>, previous: nat, start: nat, end: nat)
    requires IsNextMatch(data, previous, Some((start, end))) && RunBoundary(data, previous)
    ensures LongRun(data, start, end)
  {
    if start > 0 && data[start - 1] == data[start] {
      if previous < start {
        assert LongAt(data, start - 1);
      }
      assert false;
    }
  }

  // ----- optimality -----------------------------------------------------------------------

  lemma {:induction false} DecodeLength(chunks: seq<Chunk>, payload: seq<Byte>, k: nat)
    requires InBounds(chunks, |payload|) && k <= |chunks|
    ensures |Decode(chunks[..k], payload)| == Offset(chunks, k)
  {
    if k > 0 {
      DecodeLength(chunks, payload, k - 1);
      assert chunks[..k][..k - 1] == chunks[..k - 1];
    }
  }

  lemma {:induction false} DecodePrefix(chunks: seq<Chunk>, payload: seq<Byte>, k: nat)
    requires InBounds(chunks, |payload|) && k <= |chunks|
    ensures Decode(chunks[..k], payload) <= Decode(chunks, payload)
    decreases |chunks| - k
  {
    if k < |chunks| {
      assert chunks[..k + 1][..k] == chunks[..k];
      DecodePrefix(chunks, payload, k + 1);
    } else {
      assert chunks[..k] == chunks;
    }
  }

  /** The image is constant where chunk `k` fills. */
  lemma FillIsConstant(chunks: seq<Chunk>, payload: seq<Byte>, data: seq<Byte>, k: nat)
    requires InBounds(chunks, |payload|) && Decode(chunks, payload) == data
    requires k < |chunks| && !Literal(chunks[k])
    ensures Offset(chunks, k + 1) <= |data| && Constant(data, Offset(chunks, k), Offset(chunks, k + 1))
  {
    var prefix := chunks[..k + 1];
    var image := Decode(prefix, payload);
    DecodeLength(chunks, payload, k);
    DecodeLength(chunks, payload, k + 1);
    DecodePrefix(chunks, payload, k + 1);
    assert prefix[..k] == chunks[..k];
    assert image == Decode(chunks[..k], payload) + Fill(chunks[k].fill, chunks[k].length);
    forall i | Offset(chunks, k) <= i < Offset(chunks, k + 1) ensures data[i] == chunks[k].fill {
      assert data[i] == image[i];
    }
  }

  /** Any encoding whose fills are long must spell out every incompressible byte. */
  lemma {:induction false} LiteralsNeeded(chunks: seq<Chunk>, payload: seq<Byte>, data: seq<Byte>, k: nat)
    requires InBounds(chunks, |payload|) && LongFills(chunks) && Decode(chunks, payload) == data && k <= |chunks|
    ensures Incompressible(data, Offset(chunks, k)) <= LiteralBytes(chunks, k)
  {
    if k > 0 {
      LiteralsNeeded(chunks, payload, data, k - 1);
      ChunkCost(chunks, payload, data, k - 1);
    }
  }

  /** A chunk covers at most as many incompressible bytes as it takes from the payload. */
  lemma ChunkCost(chunks: seq<Chunk>, payload: seq<Byte>, data: seq<Byte>, k: nat)
    requires InBounds(chunks, |payload|) && LongFills(chunks) && Decode(chunks, payload) == data && k < |chunks|
    ensures Incompressible(data, Offset(chunks, k + 1))
         <= Incompressible(data, Offset(chunks, k)) + if Literal(chunks[k]) then chunks[k].length else 0
  {
    if Literal(chunks[k]) {
      IncompressibleGrowth(data, Offset(chunks, k), Offset(chunks, k + 1));
    } else {
      FillIsFree(chunks, payload, data, k);
    }
  }

  lemma FillIsFree(chunks: seq<Chunk>, payload: seq<Byte>, data: seq<Byte>, k: nat)
    requires InBounds(chunks, |payload|) && Decode(chunks, payload) == data && k < |chunks|
    requires !Literal(chunks[k]) && chunks[k].length >= MIN_RUN
    ensures Incompressible(data, Offset(chunks, k + 1)) == Incompressible(data, Offset(chunks, k))
  {
    FillIsConstant(chunks, payload, data, k);
    StretchSpan(data, Offset(chunks, k), Offset(chunks, k + 1));
  }

  lemma {:induction false} IncompressibleGrowth(data: seq<Byte>, from: nat, end: nat)
    requires from <= end
    ensures Incompressible(data, end) <= Incompressible(data, from) + (end - from)
    decreases end
  {
    if from < end {
      IncompressibleGrowth(data, from, end - 1);
    }
  }

  /** Optimality: no chunk list with fills of at least 256 bytes and consecutive literal sources
      encodes the image with a smaller payload than one of `Incompressible` bytes, which is what
      CompactChunks produces. */
  lemma PayloadIsMinimal(chunks: seq<Chunk>, payload: seq<Byte>, data: seq<Byte>)
    requires InBounds(chunks, |payload|) && LongFills(chunks) && Tiles(chunks, |payload|)
    requires Decode(chunks, payload) == data
    ensures Incompressible(data, |data|) <= |payload|
  {
    assert chunks[..|chunks|] == chunks;
    DecodeLength(chunks, payload, |chunks|);
    LiteralsNeeded(chunks, payload, data, |chunks|);
  }
}
