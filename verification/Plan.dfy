/** The plan of a run: its printer in the benchmark scripts and its parser in the guest payload.
    Text is a sequence of bytes; an accepted plan is ASCII, so text that is not UTF-8 is never accepted. */
module Plan {
  import opened Wrappers
  import opened Decimal
  import opened Chunks

  datatype Workload = Stream | Smallfiles | Read

  datatype Cell = Cell(id: string, workload: Workload, block: nat, workers: nat, bytes: nat, syncEvery: nat)

  const USIZE: nat := 0x1_0000_0000_0000_0000
  const MAX_BLOCK: nat := 16 * 1024 * 1024
  const MAX_CELL_BYTES: nat := 512 * 1024 * 1024
  const MAX_FILES: nat := 65536
  const MAX_TEXT: nat := 1024 * 1024
  const MAX_CELLS: nat := 256

  // ----- splitting text ----------------------------------------------------------------------------

  /** Index of the first `c`, or the length. */
  function Find(s: string, c: char): (n: nat)
    ensures n <= |s| && (n < |s| ==> s[n] == c) && forall i :: 0 <= i < n ==> s[i] != c
  {
    if s == [] || s[0] == c then 0 else 1 + Find(s[1..], c)
  }

  function Split(s: string, c: char): seq<string>
    decreases |s|
  {
    var n := Find(s, c);
    if n == |s| then [s] else [s[..n]] + Split(s[n + 1..], c)
  }

  /** Without the carriage return of a `\r\n` line end. */
  function Chomp(line: string): string {
    if line != [] && line[|line| - 1] == '\r' then line[..|line| - 1] else line
  }

  /** str::lines */
  function Lines(s: string): seq<string>
    decreases |s|
  {
    if s == [] then []
    else
      var n := Find(s, '\n');
      if n == |s| then [s] else [Chomp(s[..n])] + Lines(s[n + 1..])
  }

  // ----- one line ------------------------------------------------------------------------------------

  function Number(text: string): Option<nat> {
    if text == [] || !AllDigits(text) || Value(text) >= USIZE then None else Some(Value(text))
  }

  predicate PathSafe(c: char) {
    'a' <= c <= 'z' || 'A' <= c <= 'Z' || '0' <= c <= '9' || c == '_' || c == '-'
  }

  predicate IdOk(id: string) {
    0 < |id| <= 64 && forall i :: 0 <= i < |id| ==> PathSafe(id[i])
  }

  function WorkloadName(w: Workload): string {
    match w case Stream => "stream" case Smallfiles => "smallfiles" case Read => "read"
  }

  function ParseWorkload(text: string): Option<Workload> {
    if text == "stream" then Some(Stream)
    else if text == "smallfiles" then Some(Smallfiles)
    else if text == "read" then Some(Read)
    else None
  }

  /** The parser's limits on a cell. */
  predicate CellOk(c: Cell) {
    && IdOk(c.id)
    && 1 <= c.block <= MAX_BLOCK
    && 1 <= c.workers <= 64
    && c.bytes != 0 && c.bytes * c.workers <= MAX_CELL_BYTES
    && c.syncEvery < USIZE
    && (c.workload.Read? ==> c.syncEvery == 0)
    && (c.workload.Smallfiles? ==> CeilDiv(c.bytes, c.block) * c.workers <= MAX_FILES)
  }

  /** The cell a line denotes, if its six fields are well formed and within the limits. */
  function ParseLine(line: string): Option<Cell> {
    var fields := Split(line, '\t');
    if |fields| != 6 then None
    else
      var w := ParseWorkload(fields[1]);
      var block, workers, bytes, sync := Number(fields[2]), Number(fields[3]), Number(fields[4]), Number(fields[5]);
      if w.None? || block.None? || workers.None? || bytes.None? || sync.None? then None
      else
        var cell := Cell(fields[0], w.value, block.value, workers.value, bytes.value, sync.value);
        if CellOk(cell) then Some(cell) else None
  }

  // ----- the whole plan --------------------------------------------------------------------------------

  predicate UniqueIds(cells: seq<Cell>) {
    forall i, j :: 0 <= i < j < |cells| ==> cells[i].id != cells[j].id
  }

  function Ids(cells: seq<Cell>): set<string> {
    set c | c in cells :: c.id
  }

  function NonEmpty(lines: seq<string>): seq<string> {
    if lines == [] then []
    else NonEmpty(lines[..|lines| - 1]) + (if lines[|lines| - 1] == [] then [] else [lines[|lines| - 1]])
  }

  /** The non-empty lines denote exactly these cells, in order. */
  ghost predicate Denotes(lines: seq<string>, cells: seq<Cell>) {
    && |NonEmpty(lines)| == |cells|
    && forall i :: 0 <= i < |cells| ==> ParseLine(NonEmpty(lines)[i]) == Some(cells[i])
  }

  /** `text` is an acceptable plan of these cells. */
  ghost predicate IsPlan(text: string, cells: seq<Cell>) {
    && |text| <= MAX_TEXT
    && Denotes(Lines(text), cells)
    && UniqueIds(cells) && 1 <= |cells| <= MAX_CELLS
  }

  /** The state of the parser after `n` lines. */
  ghost predicate Reading(lines: seq<string>, n: nat, cells: seq<Cell>, ids: set<string>) {
    && n <= |lines| && Denotes(lines[..n], cells)
    && UniqueIds(cells) && |cells| <= MAX_CELLS
    && ids == Ids(cells)
  }

  /** The parser accepts exactly the acceptable plans and returns their cells. */
  method ReadPlan(text: string) returns (r: Result<seq<Cell>>)
    ensures r.Ok? ==> IsPlan(text, r.value)
    ensures r.Err? ==> forall cells :: !IsPlan(text, cells)
  {
    if |text| > MAX_TEXT {
      return Err;
    }
    var lines := Lines(text);
    var cells: seq<Cell> := [];
    var ids: set<string> := {};
    for n := 0 to |lines|
      invariant Reading(lines, n, cells, ids)
    {
      if lines[n] == [] {
        SkipLine(lines, n, cells, ids);
        continue;
      }
      var cell := ParseLine(lines[n]);
      if cell.None? || cell.value.id in ids || |cells| == MAX_CELLS {
        RefuseLine(lines, n, cells, ids);
        return Err;
      }
      KeepLine(lines, n, cells, ids);
      cells := cells + [cell.value];
      ids := ids + {cell.value.id};
    }
    ReadAll(lines, cells, ids);
    if cells == [] {
      return Err;
    }
    r := Ok(cells);
  }

  lemma SkipLine(lines: seq<string>, n: nat, cells: seq<Cell>, ids: set<string>)
    requires Reading(lines, n, cells, ids) && n < |lines| && lines[n] == []
    ensures Reading(lines, n + 1, cells, ids)
  {
    assert lines[..n + 1][..n] == lines[..n];
    assert NonEmpty(lines[..n + 1]) == NonEmpty(lines[..n]);
  }

  lemma KeepLine(lines: seq<string>, n: nat, cells: seq<Cell>, ids: set<string>)
    requires Reading(lines, n, cells, ids) && n < |lines| && lines[n] != []
    requires |cells| < MAX_CELLS && ParseLine(lines[n]).Some? && ParseLine(lines[n]).value.id !in ids
    ensures Reading(lines, n + 1, cells + [ParseLine(lines[n]).value], ids + {ParseLine(lines[n]).value.id})
  {
    assert lines[..n + 1][..n] == lines[..n];
    assert NonEmpty(lines[..n + 1]) == NonEmpty(lines[..n]) + [lines[n]];
    AddCell(cells, ParseLine(lines[n]).value);
  }

  lemma AddCell(cells: seq<Cell>, cell: Cell)
    requires UniqueIds(cells) && cell.id !in Ids(cells)
    ensures UniqueIds(cells + [cell]) && Ids(cells + [cell]) == Ids(cells) + {cell.id}
  {
  }

  /** A malformed line, a repeated identity or one cell too many: the text is no plan. */
  lemma RefuseLine(lines: seq<string>, n: nat, cells: seq<Cell>, ids: set<string>)
    requires Reading(lines, n, cells, ids) && n < |lines| && lines[n] != []
    requires ParseLine(lines[n]).None? || ParseLine(lines[n]).value.id in ids || |cells| == MAX_CELLS
    ensures forall all :: Denotes(lines, all) ==> !(UniqueIds(all) && |all| <= MAX_CELLS)
  {
    PrefixDenotes(lines, n, cells);
    forall all: seq<Cell> | Denotes(lines, all) ensures !(UniqueIds(all) && |all| <= MAX_CELLS) {
      var cell := ParseLine(lines[n]);
      assert cell == Some(all[|cells|]);
      if cell.value.id in ids {
        var c :| c in cells && c.id == cell.value.id;
        var i :| 0 <= i < |cells| && cells[i] == c;
        assert all[i].id == all[|cells|].id;
      }
    }
  }

  lemma ReadAll(lines: seq<string>, cells: seq<Cell>, ids: set<string>)
    requires Reading(lines, |lines|, cells, ids)
    ensures Denotes(lines, cells) && UniqueIds(cells) && |cells| <= MAX_CELLS
    ensures forall all :: Denotes(lines, all) ==> all == cells
  {
    assert lines[..|lines|] == lines;
    DenotesUnique(lines, cells);
  }

  lemma {:induction false} NonEmptyPrefix(lines: seq<string>, n: nat)
    requires n <= |lines|
    ensures NonEmpty(lines[..n]) <= NonEmpty(lines)
    decreases |lines| - n
  {
    if n < |lines| {
      NonEmptyPrefix(lines, n + 1);
      assert lines[..n + 1][..n] == lines[..n];
    } else {
      assert lines[..n] == lines;
    }
  }

  /** Every plan of the text starts with the cells parsed so far, followed by the next line's cell. */
  lemma PrefixDenotes(lines: seq<string>, n: nat, cells: seq<Cell>)
    requires n < |lines| && lines[n] != [] && Denotes(lines[..n], cells)
    ensures forall all :: Denotes(lines, all) ==>
              cells <= all && |cells| < |all| && ParseLine(lines[n]) == Some(all[|cells|])
  {
    NonEmptyPrefix(lines, n + 1);
    assert lines[..n + 1][..n] == lines[..n];
    var prefix := NonEmpty(lines[..n + 1]);
    assert prefix == NonEmpty(lines[..n]) + [lines[n]];
    forall all | Denotes(lines, all)
      ensures cells <= all && |cells| < |all| && ParseLine(lines[n]) == Some(all[|cells|])
    {
      assert NonEmpty(lines)[|cells|] == lines[n];
      forall i | 0 <= i < |cells| ensures cells[i] == all[i] {
        assert NonEmpty(lines)[i] == prefix[i];
        assert Some(cells[i]) == Some(all[i]);
      }
    }
  }

  lemma DenotesUnique(lines: seq<string>, cells: seq<Cell>)
    requires Denotes(lines, cells)
    ensures forall all :: Denotes(lines, all) ==> all == cells
  {
  }

  // ----- printing and reading back ---------------------------------------------------------------------

  function Join(fields: seq<string>, c: char): string
    requires fields != []
  {
    if |fields| == 1 then fields[0] else fields[0] + [c] + Join(fields[1..], c)
  }

  function Fields(c: Cell): seq<string> {
    [c.id, WorkloadName(c.workload), Print(c.block), Print(c.workers), Print(c.bytes), Print(c.syncEvery)]
  }

  function PlanLine(c: Cell): string { Join(Fields(c), '\t') }

  function PlanText(cells: seq<Cell>): string {
    if cells == [] then "" else PlanLine(cells[0]) + "\n" + PlanText(cells[1..])
  }

  /** What the guest parses is what the scripts printed, for every plan within the limits. */
  lemma PlanRoundTrip(cells: seq<Cell>)
    requires 1 <= |cells| <= MAX_CELLS && UniqueIds(cells)
    requires forall i :: 0 <= i < |cells| ==> CellOk(cells[i])
    ensures IsPlan(PlanText(cells), cells)
  {
    LinesOfText(cells);
    TextLength(cells);
    LinesDenote(cells);
  }

  function PlanLines(cells: seq<Cell>): (lines: seq<string>)
    ensures |lines| == |cells| && forall i :: 0 <= i < |cells| ==> lines[i] == PlanLine(cells[i])
  {
    if cells == [] then [] else [PlanLine(cells[0])] + PlanLines(cells[1..])
  }

  lemma LinesDenote(cells: seq<Cell>)
    requires forall i :: 0 <= i < |cells| ==> CellOk(cells[i])
    ensures Denotes(PlanLines(cells), cells)
  {
    var lines := PlanLines(cells);
    forall i | 0 <= i < |lines| ensures lines[i] != [] && ParseLine(lines[i]) == Some(cells[i]) {
      ParseLineBack(cells[i]);
    }
    NonEmptyAll(lines);
  }

  lemma {:induction false} NonEmptyAll(lines: seq<string>)
    requires forall i :: 0 <= i < |lines| ==> lines[i] != []
    ensures NonEmpty(lines) == lines
  {
    if lines != [] {
      NonEmptyAll(lines[..|lines| - 1]);
    }
  }

  predicate Free(s: string, c: char) { c !in s }

  lemma {:induction false} FindAfter(s: string, c: char, rest: string)
    requires Free(s, c)
    ensures Find(s + [c] + rest, c) == |s|
  {
    if s == [] {
      assert s + [c] + rest == [c] + rest;
    } else {
      FindAfter(s[1..], c, rest);
      assert (s + [c] + rest)[1..] == s[1..] + [c] + rest;
    }
  }

  lemma {:induction false} FindNone(s: string, c: char)
    requires Free(s, c)
    ensures Find(s, c) == |s|
  {
  }

  lemma SplitField(s: string, c: char, rest: string)
    requires Free(s, c)
    ensures Split(s + [c] + rest, c) == [s] + Split(rest, c)
  {
    FindAfter(s, c, rest);
    var whole := s + [c] + rest;
    assert whole[..|s|] == s && whole[|s| + 1..] == rest;
  }

  lemma SplitLast(s: string, c: char)
    requires Free(s, c)
    ensures Split(s, c) == [s]
  {
    FindNone(s, c);
  }

  lemma NumberPrint(n: nat)
    requires n < USIZE
    ensures Number(Print(n)) == Some(n)
  {
    ValuePrint(n);
  }

  lemma WorkloadBack(w: Workload)
    ensures ParseWorkload(WorkloadName(w)) == Some(w)
    ensures Free(WorkloadName(w), '\t') && Free(WorkloadName(w), '\n')
  {
  }

  predicate AllFree(fields: seq<string>, c: char) {
    forall i :: 0 <= i < |fields| ==> Free(fields[i], c)
  }

  lemma {:induction false} SplitJoin(fields: seq<string>, c: char)
    requires fields != [] && AllFree(fields, c)
    ensures Split(Join(fields, c), c) == fields
  {
    assert Free(fields[0], c);
    if |fields| == 1 {
      SplitLast(fields[0], c);
    } else {
      SplitJoin(fields[1..], c);
      SplitField(fields[0], c, Join(fields[1..], c));
    }
  }

  lemma {:induction false} JoinFree(fields: seq<string>, c: char, d: char)
    requires fields != [] && AllFree(fields, d) && c != d
    ensures Free(Join(fields, c), d)
  {
    assert Free(fields[0], d);
    if |fields| > 1 {
      JoinFree(fields[1..], c, d);
    }
  }

  lemma {:induction false} JoinLength(fields: seq<string>, c: char, bound: nat)
    requires fields != [] && forall i :: 0 <= i < |fields| ==> |fields[i]| < bound
    ensures |Join(fields, c)| < |fields| * bound
  {
    if |fields| > 1 {
      JoinLength(fields[1..], c, bound);
    }
  }

  /** A line ends with its last field, so it ends in a digit and never in a carriage return. */
  lemma {:induction false} JoinEnd(fields: seq<string>, c: char)
    requires fields != [] && fields[|fields| - 1] != []
    ensures Join(fields, c) != []
    ensures var line, last := Join(fields, c), fields[|fields| - 1]; line[|line| - 1] == last[|last| - 1]
  {
    if |fields| > 1 {
      JoinEnd(fields[1..], c);
    }
  }

  lemma FieldsFree(c: Cell)
    requires IdOk(c.id)
    ensures AllFree(Fields(c), '\t') && AllFree(Fields(c), '\n')
  {
    WorkloadBack(c.workload);
  }

  lemma ParseLineBack(c: Cell)
    requires CellOk(c)
    ensures PlanLine(c) != [] && ParseLine(PlanLine(c)) == Some(c)
  {
    FieldsFree(c);
    SplitJoin(Fields(c), '\t');
    JoinEnd(Fields(c), '\t');
    WorkloadBack(c.workload);
    BytesBound(c);
    NumberPrint(c.block);
    NumberPrint(c.workers);
    NumberPrint(c.bytes);
    NumberPrint(c.syncEvery);
  }

  lemma BytesBound(c: Cell)
    requires CellOk(c)
    ensures c.bytes <= MAX_CELL_BYTES
  {
    AtMostProduct(c.bytes, c.workers);
  }

  lemma AtMostProduct(a: nat, b: nat)
    requires 1 <= b
    ensures a <= a * b
  {
  }

  lemma LineFree(c: Cell)
    requires IdOk(c.id)
    ensures Free(PlanLine(c), '\n') && Chomp(PlanLine(c)) == PlanLine(c)
  {
    FieldsFree(c);
    JoinFree(Fields(c), '\t', '\n');
    JoinEnd(Fields(c), '\t');
  }

  lemma {:induction false} LinesOfText(cells: seq<Cell>)
    requires forall i :: 0 <= i < |cells| ==> CellOk(cells[i])
    ensures Lines(PlanText(cells)) == PlanLines(cells)
  {
    if cells != [] {
      var line, rest := PlanLine(cells[0]), PlanText(cells[1..]);
      LinesOfText(cells[1..]);
      LineFree(cells[0]);
      FindAfter(line, '\n', rest);
      var text := line + "\n" + rest;
      assert text[..|line|] == line && text[|line| + 1..] == rest;
    }
  }

  lemma {:induction false} TextLength(cells: seq<Cell>)
    requires forall i :: 0 <= i < |cells| ==> CellOk(cells[i])
    ensures |PlanText(cells)| <= 390 * |cells|
  {
    if cells != [] {
      LineLength(cells[0]);
      TextLength(cells[1..]);
    }
  }

  lemma LineLength(c: Cell)
    requires CellOk(c)
    ensures |PlanLine(c)| < 390
  {
    BytesBound(c);
    NumberLength(c.block);
    NumberLength(c.workers);
    NumberLength(c.bytes);
    NumberLength(c.syncEvery);
    JoinLength(Fields(c), '\t', 65);
  }

  lemma NumberLength(n: nat)
    requires n < USIZE
    ensures |Print(n)| <= 20
  {
    assert Pow10(4) == 10000;
    assert Pow10(8) == 1_0000_0000;
    assert Pow10(12) == 1_0000_0000_0000;
    assert Pow10(16) == 1_0000_0000_0000_0000;
    assert Pow10(20) == 1_0000_0000_0000_0000_0000;
    PrintLength(n, 20);
  }

  /** Printing a plan and reading it gives the cells back. */
  method PrintThenRead(cells: seq<Cell>) returns (r: Result<seq<Cell>>)
    requires 1 <= |cells| <= MAX_CELLS && UniqueIds(cells)
    requires forall i :: 0 <= i < |cells| ==> CellOk(cells[i])
    ensures r == Ok(cells)
  {
    PlanRoundTrip(cells);
    DenotesUnique(Lines(PlanText(cells)), cells);
    r := ReadPlan(PlanText(cells));
  }

  // ----- accepted plans are ASCII ------------------------------------------------------------------------

  predicate Ascii(s: string) {
    forall i :: 0 <= i < |s| ==> s[i] as int < 128
  }

  predicate AllAscii(parts: seq<string>) {
    forall i :: 0 <= i < |parts| ==> Ascii(parts[i])
  }

  lemma AsciiTail(parts: seq<string>, first: string, rest: seq<string>)
    requires AllAscii(parts) && parts == [first] + rest
    ensures Ascii(first) && AllAscii(rest)
  {
    assert parts[0] == first;
    forall i | 0 <= i < |rest| ensures Ascii(rest[i]) {
      assert rest[i] == parts[i + 1];
    }
  }

  lemma AsciiJoin(a: string, c: char, b: string)
    requires Ascii(a) && Ascii(b) && c as int < 128
    ensures Ascii(a + [c] + b)
  {
  }

  lemma {:induction false} AsciiFields(s: string, c: char)
    requires c as int < 128 && AllAscii(Split(s, c))
    ensures Ascii(s)
    decreases |s|
  {
    var n := Find(s, c);
    if n < |s| {
      AsciiTail(Split(s, c), s[..n], Split(s[n + 1..], c));
      AsciiFields(s[n + 1..], c);
      AsciiJoin(s[..n], c, s[n + 1..]);
      assert s == s[..n] + [c] + s[n + 1..];
    } else {
      assert Split(s, c)[0] == s;
    }
  }

  lemma AsciiLine(line: string)
    requires ParseLine(line).Some?
    ensures Ascii(line)
  {
    var fields := Split(line, '\t');
    forall i | 0 <= i < |fields| ensures Ascii(fields[i]) {
      if i == 0 {
        assert IdOk(fields[0]);
      } else if i > 1 {
        assert AllDigits(fields[i]);
      }
    }
    AsciiFields(line, '\t');
  }

  lemma {:induction false} AsciiLines(s: string)
    requires AllAscii(Lines(s))
    ensures Ascii(s)
    decreases |s|
  {
    if s != [] {
      var n := Find(s, '\n');
      if n < |s| {
        AsciiTail(Lines(s), Chomp(s[..n]), Lines(s[n + 1..]));
        AsciiLines(s[n + 1..]);
        AsciiChomp(s[..n]);
        AsciiJoin(s[..n], '\n', s[n + 1..]);
        assert s == s[..n] + ['\n'] + s[n + 1..];
      } else {
        assert Lines(s)[0] == s;
      }
    }
  }

  lemma AsciiChomp(line: string)
    requires Ascii(Chomp(line))
    ensures Ascii(line)
  {
    if Chomp(line) != line {
      assert line == Chomp(line) + ['\r'];
    }
  }

  lemma {:induction false} LineIsEmptyOrKept(lines: seq<string>, i: nat) returns (j: nat)
    requires i < |lines| && lines[i] != []
    ensures j < |NonEmpty(lines)| && NonEmpty(lines)[j] == lines[i]
  {
    var last := |lines| - 1;
    if i == last {
      j := |NonEmpty(lines[..last])|;
    } else {
      j := LineIsEmptyOrKept(lines[..last], i);
    }
  }

  /** Text with a byte above 127, and so any text that is not UTF-8 or not ASCII, is no plan. */
  lemma PlansAreAscii(text: string, cells: seq<Cell>)
    requires IsPlan(text, cells)
    ensures Ascii(text)
  {
    var lines := Lines(text);
    forall i | 0 <= i < |lines| ensures Ascii(lines[i]) {
      if lines[i] != [] {
        var j := LineIsEmptyOrKept(lines, i);
        assert ParseLine(NonEmpty(lines)[j]) == Some(cells[j]);
        AsciiLine(lines[i]);
      }
    }
    AsciiLines(text);
  }

  // ----- what is accepted, exactly -----------------------------------------------------------------------------

  /** The field spells the number, with or without leading zeros. */
  predicate Spelled(text: string, n: nat) {
    text != [] && AllDigits(text) && Value(text) == n < USIZE
  }

  /** Six fields between tabs that spell a cell within the limits. */
  ghost predicate LineSpells(line: string, fields: seq<string>, c: Cell) {
    && |fields| == 6 && AllFree(fields, '\t') && line == Join(fields, '\t')
    && fields[0] == c.id && FieldsAre(fields, c) && CellOk(c)
  }

  lemma {:induction false} JoinSplit(s: string, c: char)
    ensures Split(s, c) != [] && AllFree(Split(s, c), c) && Join(Split(s, c), c) == s
    decreases |s|
  {
    var n := Find(s, c);
    if n < |s| {
      JoinSplit(s[n + 1..], c);
      assert Split(s, c)[1..] == Split(s[n + 1..], c);
      assert s == s[..n] + [c] + s[n + 1..];
    }
  }

  lemma WorkloadSpelled(text: string, w: Workload)
    ensures ParseWorkload(text) == Some(w) <==> text == WorkloadName(w)
  {
    assert "stream"[1] == 't' && "smallfiles"[1] == 'm' && "read"[1] == 'e';
  }

  lemma NumberSpelled(text: string, n: nat)
    ensures Number(text) == Some(n) <==> Spelled(text, n)
  {
  }

  /** The parser reads these fields as the cell's. */
  predicate Parsed(fields: seq<string>, c: Cell)
    requires |fields| == 6
  {
    && ParseWorkload(fields[1]) == Some(c.workload)
    && Number(fields[2]) == Some(c.block) && Number(fields[3]) == Some(c.workers)
    && Number(fields[4]) == Some(c.bytes) && Number(fields[5]) == Some(c.syncEvery)
  }

  predicate FieldsAre(fields: seq<string>, c: Cell)
    requires |fields| == 6
  {
    && fields[1] == WorkloadName(c.workload) && Spelled(fields[2], c.block) && Spelled(fields[3], c.workers)
    && Spelled(fields[4], c.bytes) && Spelled(fields[5], c.syncEvery)
  }

  lemma FieldsSpell(fields: seq<string>, c: Cell)
    requires |fields| == 6
    ensures Parsed(fields, c) <==> FieldsAre(fields, c)
  {
    WorkloadSpelled(fields[1], c.workload);
    NumberSpelled(fields[2], c.block);
    NumberSpelled(fields[3], c.workers);
    NumberSpelled(fields[4], c.bytes);
    NumberSpelled(fields[5], c.syncEvery);
  }

  /** A line is parsed to a cell if and only if its fields spell that cell, within the limits. */
  lemma ParsedExactly(line: string, c: Cell)
    ensures ParseLine(line) == Some(c) <==> exists fields :: LineSpells(line, fields, c)
  {
    var fields := Split(line, '\t');
    JoinSplit(line, '\t');
    if |fields| == 6 {
      FieldsSpell(fields, c);
    }
    if ParseLine(line) == Some(c) {
      assert LineSpells(line, fields, c);
    }
    if other :| LineSpells(line, other, c) {
      SplitJoin(other, '\t');
    }
  }

  /** Each line, with the end it has in the text. */
  function Weave(lines: seq<string>, ends: seq<string>): string
    requires |lines| == |ends|
  {
    if lines == [] then "" else lines[0] + ends[0] + Weave(lines[1..], ends[1..])
  }

  /** Lines end with a newline, before which one carriage return does not count; the last may end with the text. */
  predicate LineEnds(lines: seq<string>, ends: seq<string>) {
    && |lines| == |ends|
    && (forall i :: 0 <= i < |lines| ==> Free(lines[i], '\n'))
    && (forall i :: 0 <= i < |lines| ==> LineEnd(lines[i], ends[i], i == |lines| - 1))
  }

  predicate LineEnd(line: string, end: string, last: bool) {
    || end == "\r\n"
    || (end == "\n" && (line == [] || line[|line| - 1] != '\r'))
    || (end == "" && last && line != [])
  }

  lemma LineAndEnd(s: string, n: nat, end: string)
    requires n < |s| && s[n] == '\n' && end == if Chomp(s[..n]) == s[..n] then "\n" else "\r\n"
    ensures s == Chomp(s[..n]) + end + s[n + 1..]
  {
    var line := s[..n];
    assert s == line + "\n" + s[n + 1..];
    if Chomp(line) != line {
      assert line == Chomp(line) + "\r";
    }
  }

  lemma EndsCons(line: string, end: string, lines: seq<string>, ends: seq<string>)
    requires LineEnds(lines, ends) && Free(line, '\n') && LineEnd(line, end, false)
    ensures LineEnds([line] + lines, [end] + ends)
    ensures Weave([line] + lines, [end] + ends) == line + end + Weave(lines, ends)
  {
    var all, allEnds := [line] + lines, [end] + ends;
    forall i | 0 <= i < |all| ensures Free(all[i], '\n') && LineEnd(all[i], allEnds[i], i == |all| - 1) {
      if i > 0 {
        assert LineEnd(lines[i - 1], ends[i - 1], i - 1 == |lines| - 1);
      }
    }
    assert all[1..] == lines && allEnds[1..] == ends;
  }

  lemma ChompedLine(s: string, n: nat)
    requires n == Find(s, '\n') && n < |s|
    ensures var line := s[..n];
            Free(Chomp(line), '\n') && LineEnd(Chomp(line), if Chomp(line) == line then "\n" else "\r\n", false)
  {
  }

  lemma LastLine(s: string)
    requires s != [] && Find(s, '\n') == |s|
    ensures LineEnds([s], [""]) && Weave([s], [""]) == s
  {
    assert [s][1..] == [] && [""][1..] == [];
    assert Weave([], []) == "";
  }

  /** The lines are all of the text. */
  lemma {:induction false} LinesAreText(s: string) returns (ends: seq<string>)
    ensures LineEnds(Lines(s), ends) && Weave(Lines(s), ends) == s
    decreases |s|
  {
    if s == [] {
      ends := [];
    } else {
      var n := Find(s, '\n');
      if n == |s| {
        ends := [""];
        LastLine(s);
      } else {
        var line, rest := s[..n], s[n + 1..];
        var end := if Chomp(line) == line then "\n" else "\r\n";
        var more := LinesAreText(rest);
        ChompedLine(s, n);
        LineAndEnd(s, n, end);
        EndsCons(Chomp(line), end, Lines(rest), more);
        ends := [end] + more;
      }
    }
  }

  /** Every cell of an accepted plan is within the limits, and comes from a line that spells it. */
  lemma PlanSpells(text: string, cells: seq<Cell>, i: nat)
    requires IsPlan(text, cells) && i < |cells|
    ensures CellOk(cells[i]) && exists fields :: LineSpells(NonEmpty(Lines(text))[i], fields, cells[i])
  {
    ParsedExactly(NonEmpty(Lines(text))[i], cells[i]);
  }
}
