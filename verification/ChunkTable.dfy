/** The chunk table written as a C initializer, and a reader of such initializers. */
module ChunkTable {
  import opened Wrappers
  import opened Decimal
  import opened CompactBundle

  // ----- the reader --------------------------------------------------------------------------------------------

  datatype Token = Open | Close | Comma | Minus | Semicolon | Number(value: nat)

  predicate IsSpace(c: char) { c == ' ' || c == '\n' }

  /** Digits at the front of the text. */
  function DigitRun(s: string): (n: nat)
    ensures n <= |s| && AllDigits(s[..n]) && (n < |s| ==> !IsDigit(s[n]))
  {
    if s == [] || !IsDigit(s[0]) then 0
    else
      var n := 1 + DigitRun(s[1..]);
      assert s[..n] == [s[0]] + s[1..][..n - 1];
      n
  }

  function Prepend(ts: seq<Token>, rest: Option<seq<Token>>): Option<seq<Token>> {
    if rest.None? then None else Some(ts + rest.value)
  }

  function Punctuation(c: char): Option<Token> {
    match c
    case '{' => Some(Open)
    case '}' => Some(Close)
    case ',' => Some(Comma)
    case '-' => Some(Minus)
    case ';' => Some(Semicolon)
    case _ => None
  }

  /** White space separates tokens. Section 6.4.4.1 of ISO C11: a constant takes the longest run of digits, and one
      that begins with a zero is octal, so only zero itself is read here. */
  function Lex(s: string): Option<seq<Token>>
    decreases |s|
  {
    if s == [] then Some([])
    else if IsSpace(s[0]) then Lex(s[1..])
    else if IsDigit(s[0]) then
      var n := DigitRun(s);
      if s[0] == '0' && n != 1 then None else Prepend([Number(Value(s[..n]))], Lex(s[n..]))
    else
      match Punctuation(s[0])
      case None => None
      case Some(t) => Prepend([t], Lex(s[1..]))
  }

  /** An integer constant, or one with a minus sign before it. */
  function ParseInt(ts: seq<Token>): Option<(int, seq<Token>)> {
    if |ts| >= 1 && ts[0].Number? then
      var x: int := ts[0].value;
      Some((x, ts[1..]))
    else if |ts| >= 2 && ts[0].Minus? && ts[1].Number? then
      var x: int := 0 - ts[1].value;
      Some((x, ts[2..]))
    else None
  }

  /** One row: a length, a source and a fill in braces. */
  function ParseRow(ts: seq<Token>): (r: Option<(Chunk, seq<Token>)>)
    ensures r.Some? ==> |r.value.1| < |ts|
  {
    if |ts| >= 5 && ts[0].Open? && ts[1].Number? && ts[2].Comma? && ts[3].Number? && ts[4].Comma? then
      match ParseInt(ts[5..])
      case None => None
      case Some((fill, rest)) =>
        if rest != [] && rest[0].Close? then Some((Chunk(ts[1].value, ts[3].value, fill), rest[1..])) else None
    else None
  }

  /** The rows up to the closing brace and the semicolon; a comma may follow the last row. */
  function Parse(ts: seq<Token>): Option<seq<Chunk>>
    decreases |ts|
  {
    if ts == [Close, Semicolon] then Some([])
    else
      match ParseRow(ts)
      case None => None
      case Some((c, rest)) =>
        if rest == [Close, Semicolon] then Some([c])
        else if rest != [] && rest[0].Comma? then
          match Parse(rest[1..])
          case None => None
          case Some(chunks) => Some([c] + chunks)
        else None
  }

  /** The chunks that the text of an initializer, after its opening brace, stands for. */
  function ReadTable(text: string): Option<seq<Chunk>> {
    match Lex(text)
    case None => None
    case Some(ts) => Parse(ts)
  }

  // ----- the writer --------------------------------------------------------------------------------------------

  function IntText(x: int): string {
    if x < 0 then "-" + Print(-x) else Print(x)
  }

  function RowText(c: Chunk): string {
    "    {" + Print(c.length) + ", " + Print(c.source) + ", " + IntText(c.fill) + "},\n"
  }

  function TableText(chunks: seq<Chunk>): string {
    if chunks == [] then "};\n" else RowText(chunks[0]) + TableText(chunks[1..])
  }

  // ----- reading back ------------------------------------------------------------------------------------------

  /** The text, followed by anything in `rest`, has these tokens first. */
  ghost predicate Spells(text: string, ts: seq<Token>, rest: string) {
    Lex(text + rest) == Prepend(ts, Lex(rest))
  }

  /** Two pieces of text, one after the other. */
  lemma SpellsBoth(a: string, ts: seq<Token>, b: string, us: seq<Token>, rest: string)
    requires Spells(a, ts, b + rest) && Spells(b, us, rest)
    ensures Spells(a + b, ts + us, rest)
  {
    assert (a + b) + rest == a + (b + rest);
    if Lex(rest).Some? {
      assert ts + (us + Lex(rest).value) == (ts + us) + Lex(rest).value;
    }
  }

  lemma SpellsSpace(c: char, rest: string)
    requires IsSpace(c)
    ensures Spells([c], [], rest)
  {
    assert ([c] + rest)[1..] == rest;
    if Lex(rest).Some? {
      assert [] + Lex(rest).value == Lex(rest).value;
    }
  }

  lemma SpellsMark(c: char, rest: string)
    requires Punctuation(c).Some?
    ensures Spells([c], [Punctuation(c).value], rest)
  {
    assert ([c] + rest)[1..] == rest;
  }

  lemma {:induction false} PrintFirst(n: nat)
    requires 0 < n
    ensures Print(n)[0] != '0'
  {
    if n >= 10 {
      PrintFirst(n / 10);
    }
  }

  lemma {:induction false} DigitRunIs(digits: string, rest: string)
    requires AllDigits(digits) && (rest != [] ==> !IsDigit(rest[0]))
    ensures DigitRun(digits + rest) == |digits|
  {
    if digits == [] {
      assert digits + rest == rest;
    } else {
      DigitRunIs(digits[1..], rest);
      assert (digits + rest)[1..] == digits[1..] + rest;
    }
  }

  lemma SpellsNumber(n: nat, rest: string)
    requires rest != [] ==> !IsDigit(rest[0])
    ensures Spells(Print(n), [Number(n)], rest)
  {
    var digits := Print(n);
    DigitRunIs(digits, rest);
    ValuePrint(n);
    if n > 0 {
      PrintFirst(n);
    }
    assert (digits + rest)[..|digits|] == digits && (digits + rest)[|digits|..] == rest;
    assert (digits + rest)[0] == digits[0];
  }

  function IntTokens(x: int): seq<Token> {
    if x < 0 then [Minus, Number(-x)] else [Number(x)]
  }

  lemma SpellsInt(x: int, rest: string)
    requires rest != [] ==> !IsDigit(rest[0])
    ensures Spells(IntText(x), IntTokens(x), rest)
  {
    if x < 0 {
      SpellsNumber(-x, rest);
      SpellsMark('-', Print(-x) + rest);
      SpellsBoth(['-'], [Minus], Print(-x), [Number(-x)], rest);
      assert [Minus] + [Number(-x)] == IntTokens(x);
    } else {
      SpellsNumber(x, rest);
    }
  }

  lemma SpellsComma(rest: string)
    ensures Spells(", ", [Comma], rest)
  {
    SpellsSpace(' ', rest);
    SpellsMark(',', [' '] + rest);
    SpellsBoth([','], [Comma], [' '], [], rest);
    assert [','] + [' '] == ", " && [Comma] + [] == [Comma];
  }

  lemma {:induction false} SpellsIndent(n: nat, rest: string)
    ensures Spells(seq(n, _ => ' '), [], rest)
  {
    if n == 0 {
      assert seq(n, _ => ' ') + rest == rest;
      if Lex(rest).Some? {
        assert [] + Lex(rest).value == Lex(rest).value;
      }
    } else {
      var indent, none: seq<Token> := seq(n - 1, _ => ' '), [];
      SpellsIndent(n - 1, rest);
      SpellsSpace(' ', indent + rest);
      SpellsBoth([' '], none, indent, none, rest);
      assert [' '] + indent == seq(n, _ => ' ') && none + none == none;
    }
  }

  lemma SpellsRowStart(rest: string)
    ensures Spells("    {", [Open], rest)
  {
    SpellsMark('{', rest);
    SpellsIndent(4, ['{'] + rest);
    SpellsBoth(seq(4, _ => ' '), [], ['{'], [Open], rest);
    assert seq(4, _ => ' ') + ['{'] == "    {" && [] + [Open] == [Open];
  }

  lemma SpellsRowEnd(rest: string)
    ensures Spells("},\n", [Close, Comma], rest)
  {
    SpellsSpace('\n', rest);
    SpellsMark(',', ['\n'] + rest);
    SpellsBoth([','], [Comma], ['\n'], [], rest);
    assert [','] + ['\n'] == ",\n" && [Comma] + [] == [Comma];
    SpellsMark('}', ",\n" + rest);
    SpellsBoth(['}'], [Close], ",\n", [Comma], rest);
    assert ['}'] + ",\n" == "},\n" && [Close] + [Comma] == [Close, Comma];
  }

  lemma SpellsTableEnd()
    ensures Lex("};\n") == Some([Close, Semicolon])
  {
    SpellsSpace('\n', []);
    SpellsMark(';', ['\n'] + []);
    SpellsBoth([';'], [Semicolon], ['\n'], [], []);
    assert [';'] + ['\n'] == ";\n" && [Semicolon] + [] == [Semicolon];
    SpellsMark('}', ";\n" + []);
    SpellsBoth(['}'], [Close], ";\n", [Semicolon], []);
    assert ['}'] + ";\n" == "};\n" && [Close] + [Semicolon] == [Close, Semicolon];
    assert "};\n" + [] == "};\n" && [Close, Semicolon] + [] == [Close, Semicolon];
  }

  /** A number and the comma after it. */
  lemma SpellsField(n: nat, rest: string)
    ensures Spells(Print(n) + ", ", [Number(n), Comma], rest)
  {
    SpellsComma(rest);
    SpellsNumber(n, ", " + rest);
    SpellsBoth(Print(n), [Number(n)], ", ", [Comma], rest);
    assert [Number(n)] + [Comma] == [Number(n), Comma];
  }

  /** The fill and the end of the row. */
  lemma SpellsLast(fill: int, rest: string)
    ensures Spells(IntText(fill) + "},\n", IntTokens(fill) + [Close, Comma], rest)
  {
    SpellsRowEnd(rest);
    SpellsInt(fill, "},\n" + rest);
    SpellsBoth(IntText(fill), IntTokens(fill), "},\n", [Close, Comma], rest);
  }

  function RowTokens(c: Chunk): seq<Token> {
    [Open] + ([Number(c.length), Comma] + ([Number(c.source), Comma] + (IntTokens(c.fill) + [Close, Comma])))
  }

  function FieldText(n: nat): string { Print(n) + ", " }

  function LastText(fill: int): string { IntText(fill) + "},\n" }

  lemma RowParts(c: Chunk)
    ensures RowText(c) == "    {" + (FieldText(c.length) + (FieldText(c.source) + LastText(c.fill)))
  {
  }

  lemma SpellsRow(c: Chunk, rest: string)
    ensures Spells(RowText(c), RowTokens(c), rest)
  {
    var fill, fillTokens := LastText(c.fill), IntTokens(c.fill) + [Close, Comma];
    SpellsLast(c.fill, rest);
    var source, sourceTokens := FieldText(c.source) + fill, [Number(c.source), Comma] + fillTokens;
    SpellsField(c.source, fill + rest);
    SpellsBoth(FieldText(c.source), [Number(c.source), Comma], fill, fillTokens, rest);
    var length, lengthTokens := FieldText(c.length) + source, [Number(c.length), Comma] + sourceTokens;
    SpellsField(c.length, source + rest);
    SpellsBoth(FieldText(c.length), [Number(c.length), Comma], source, sourceTokens, rest);
    SpellsRowStart(length + rest);
    SpellsBoth("    {", [Open], length, lengthTokens, rest);
    RowParts(c);
  }

  lemma ParseIntBack(x: int, rest: seq<Token>)
    ensures ParseInt(IntTokens(x) + rest) == Some((x, rest))
  {
    assert (IntTokens(x) + rest)[|IntTokens(x)|..] == rest;
  }

  lemma ParseRowBack(c: Chunk, rest: seq<Token>)
    ensures ParseRow(RowTokens(c) + rest) == Some((c, [Comma] + rest))
  {
    var ts, after := RowTokens(c) + rest, [Close, Comma] + rest;
    ParseIntBack(c.fill, after);
    assert ts[5..] == IntTokens(c.fill) + after;
    assert after[1..] == [Comma] + rest;
  }

  function TableTokens(chunks: seq<Chunk>): seq<Token> {
    if chunks == [] then [Close, Semicolon] else RowTokens(chunks[0]) + TableTokens(chunks[1..])
  }

  lemma {:induction false} LexTable(chunks: seq<Chunk>)
    ensures Lex(TableText(chunks)) == Some(TableTokens(chunks))
  {
    if chunks == [] {
      SpellsTableEnd();
    } else {
      LexTable(chunks[1..]);
      SpellsRow(chunks[0], TableText(chunks[1..]));
    }
  }

  lemma ParseStep(ts: seq<Token>, c: Chunk, rest: seq<Token>)
    requires ts != [] && ts[0].Open? && ParseRow(ts) == Some((c, [Comma] + rest))
    ensures Parse(ts) == match Parse(rest) case None => None case Some(chunks) => Some([c] + chunks)
  {
    assert ([Comma] + rest)[1..] == rest && ([Comma] + rest)[0] == Comma;
  }

  lemma {:induction false} ParseTable(chunks: seq<Chunk>)
    ensures Parse(TableTokens(chunks)) == Some(chunks)
  {
    if chunks != [] {
      var rest := TableTokens(chunks[1..]);
      ParseTable(chunks[1..]);
      ParseRowBack(chunks[0], rest);
      ParseStep(RowTokens(chunks[0]) + rest, chunks[0], rest);
      assert chunks == [chunks[0]] + chunks[1..];
    }
  }

  /** The compiler reads back the table that was written. */
  lemma TableReadsBack(chunks: seq<Chunk>)
    ensures ReadTable(TableText(chunks)) == Some(chunks)
  {
    LexTable(chunks);
    ParseTable(chunks);
  }

  /** The first `n` rows. */
  function RowsText(chunks: seq<Chunk>, n: nat): string
    requires n <= |chunks|
  {
    if n == 0 then [] else RowsText(chunks, n - 1) + RowText(chunks[n - 1])
  }

  lemma {:induction false} TableSnoc(chunks: seq<Chunk>, n: nat)
    requires n <= |chunks|
    ensures RowsText(chunks, n) + TableText(chunks[n..]) == TableText(chunks)
  {
    if n > 0 {
      TableSnoc(chunks, n - 1);
      assert chunks[n - 1..][1..] == chunks[n..];
      Regroup(RowsText(chunks, n - 1), RowText(chunks[n - 1]), TableText(chunks[n..]));
    }
  }

  lemma Regroup(a: string, b: string, c: string)
    ensures a + b + c == a + (b + c)
  {
  }

  /** The loop that writes the rows, and the line that closes the table. */
  method WriteTable(chunks: seq<Chunk>) returns (text: string)
    ensures ReadTable(text) == Some(chunks)
  {
    text := "";
    for i := 0 to |chunks|
      invariant text == RowsText(chunks, i)
    {
      text := text + RowText(chunks[i]);
    }
    TableSnoc(chunks, |chunks|);
    TableReadsBack(chunks);
    text := text + "};\n";
  }
}
