/** Byte arrays written as C string literals, and a lexer that reads them back. */
module CLiterals {
  import opened Wrappers
  import opened Bytes

  // The lexer follows sections 6.4.4.4 (hexadecimal escapes take the longest run of digits and
  // must fit an unsigned char), 6.4.5 (string literals) and 5.1.1.2 (escapes are converted before
  // adjacent literals are concatenated) of ISO C11.

  predicate IsHex(c: char) {
    '0' <= c <= '9' || 'a' <= c <= 'f' || 'A' <= c <= 'F'
  }

  function DigitValue(c: char): (r: nat)
    requires IsHex(c)
    ensures r < 16
  {
    if c <= '9' then c as int - '0' as int
    else if c <= 'F' then c as int - 'A' as int + 10
    else c as int - 'a' as int + 10
  }

  // ----- the lexer ------------------------------------------------------------------------

  function HexRun(s: string): (n: nat)
    ensures n <= |s|
  {
    if s != [] && IsHex(s[0]) then 1 + HexRun(s[1..]) else 0
  }

  function HexValue(s: string): nat
    requires forall i :: 0 <= i < |s| ==> IsHex(s[i])
  {
    if s == [] then 0 else 16 * HexValue(s[..|s| - 1]) + DigitValue(s[|s| - 1])
  }

  lemma {:induction false} HexRunDigits(s: string)
    ensures forall i :: 0 <= i < HexRun(s) ==> IsHex(s[i])
  {
    if s != [] && IsHex(s[0]) {
      HexRunDigits(s[1..]);
    }
  }

  predicate IsSpace(c: char) {
    c == ' ' || c == '\n' || c == '\t'
  }

  /** The bytes of the adjacent string literals at the start of `s`, and the text after them. */
  datatype Lexed = Lexed(bytes: seq<Byte>, rest: string)

  function Prepend(bytes: seq<Byte>, r: Option<Lexed>): Option<Lexed> {
    if r.None? then None else Some(Lexed(bytes + r.value.bytes, r.value.rest))
  }

  /** Between literals. */
  function Outside(s: string): Option<Lexed>
    decreases |s|
  {
    if s == [] then Some(Lexed([], []))
    else if IsSpace(s[0]) then Outside(s[1..])
    else if s[0] == '"' then Inside(s[1..])
    else Some(Lexed([], s))
  }

  /** Inside a literal: None for an unterminated literal or a malformed escape. */
  function Inside(s: string): Option<Lexed>
    decreases |s|
  {
    if s == [] || s[0] == '\n' then None
    else if s[0] == '"' then Outside(s[1..])
    else if s[0] != '\\' then
      if s[0] as int < 128 then Prepend([s[0] as int], Inside(s[1..])) else None
    else if |s| < 3 || s[1] != 'x' || !IsHex(s[2]) then None
    else
      var n := HexRun(s[2..]);
      HexRunDigits(s[2..]);
      var value := HexValue(s[2..2 + n]);
      if value < 256 then Prepend([value], Inside(s[2 + n..])) else None
  }

  // ----- the writers ------------------------------------------------------------------------

  function Digit(n: nat): char
    requires n < 16
  {
    "0123456789abcdef"[n]
  }

  /** `\x{:x}`: no leading zero. */
  function Escape(b: Byte): string {
    "\\x" + if b < 16 then [Digit(b)] else [Digit(b / 16), Digit(b % 16)]
  }

  /** `\x%02x`: always two digits. */
  function WideEscape(b: Byte): string {
    ['\\', 'x', Digit(b / 16), Digit(b % 16)]
  }

  const LINE_BREAK: string := "\"\n\""

  /** The text written for `bytes` when the current line already holds `col` of its 16 bytes. */
  function Emit(bytes: seq<Byte>, col: nat): string {
    if bytes == [] then []
    else Escape(bytes[0]) + (if col == 15 then LINE_BREAK else []) + Emit(bytes[1..], NextCol(col))
  }

  function NextCol(col: nat): nat {
    if col == 15 then 0 else col + 1
  }

  /** A text that cannot extend an escape before it. */
  predicate Stops(s: string) {
    s == [] || !IsHex(s[0])
  }

  /** Reading `text` inside a literal yields `bytes` and stays inside a literal. */
  ghost predicate Spells(text: string, bytes: seq<Byte>) {
    && Stops(text)
    && forall rest: string {:trigger text + rest} :: Stops(rest) ==> Inside(text + rest) == Prepend(bytes, Inside(rest))
  }

  // ----- reading back what was written ---------------------------------------------------------

  lemma DigitRoundTrip(n: nat)
    requires n < 16
    ensures IsHex(Digit(n)) && DigitValue(Digit(n)) == n
  {}

  lemma InsideEscape(digits: string, value: Byte, rest: string)
    requires |digits| == 1 || |digits| == 2
    requires (forall i :: 0 <= i < |digits| ==> IsHex(digits[i])) && HexValue(digits) == value
    requires Stops(rest)
    ensures Inside("\\x" + digits + rest) == Prepend([value], Inside(rest))
  {
    var s := "\\x" + digits + rest;
    assert s[2..] == digits + rest;
    var tail := digits + rest;
    assert tail[1..] == digits[1..] + rest;
    assert HexRun(rest) == 0;
    assert HexRun(tail) == 1 + HexRun(tail[1..]);
    if |digits| == 2 {
      assert tail[1..][0] == digits[1] && tail[1..][1..] == rest;
    } else {
      assert tail[1..] == rest;
    }
    assert HexRun(tail) == |digits|;
    assert s[2..2 + |digits|] == digits;
    assert s[2 + |digits|..] == rest;
  }

  lemma InsideEscapes(b: Byte, rest: string)
    requires Stops(rest)
    ensures Inside(Escape(b) + rest) == Prepend([b], Inside(rest))
    ensures Inside(WideEscape(b) + rest) == Prepend([b], Inside(rest))
  {
    var two := [Digit(b / 16), Digit(b % 16)];
    TwoDigits(b);
    InsideEscape(two, b, rest);
    assert WideEscape(b) == "\\x" + two;
    if b < 16 {
      OneDigit(b);
      InsideEscape([Digit(b)], b, rest);
    }
  }

  lemma TwoDigits(b: Byte)
    ensures IsHex(Digit(b / 16)) && IsHex(Digit(b % 16)) && HexValue([Digit(b / 16), Digit(b % 16)]) == b
  {
    DigitRoundTrip(b / 16);
    DigitRoundTrip(b % 16);
    HexOfTwo(Digit(b / 16), Digit(b % 16));
  }

  lemma OneDigit(b: Byte)
    requires b < 16
    ensures IsHex(Digit(b)) && HexValue([Digit(b)]) == b
  {
  }

  lemma HexOfOne(c: char)
    requires IsHex(c)
    ensures HexValue([c]) == DigitValue(c)
  {}

  lemma HexOfTwo(c: char, d: char)
    requires IsHex(c) && IsHex(d)
    ensures HexValue([c, d]) == 16 * DigitValue(c) + DigitValue(d)
  {
    assert [c, d][..1] == [c];
    HexOfOne(c);
  }

  lemma InsideBreak(rest: string)
    ensures Inside(LINE_BREAK + rest) == Inside(rest)
  {
    var s, s1, s2 := LINE_BREAK + rest, "\n\"" + rest, "\"" + rest;
    assert s[1..] == s1 && s1[1..] == s2 && s2[1..] == rest;
    assert Outside(s1) == Outside(s2) == Inside(rest);
  }

  lemma PrependPrepend(x: seq<Byte>, y: seq<Byte>, r: Option<Lexed>)
    ensures Prepend(x, Prepend(y, r)) == Prepend(x + y, r)
  {
    if r.Some? {
      assert x + (y + r.value.bytes) == (x + y) + r.value.bytes;
    }
  }

  lemma EmitStops(bytes: seq<Byte>, col: nat, rest: string)
    requires Stops(rest)
    ensures Stops(Emit(bytes, col) + rest)
  {
  }

  /** A line break of the literal does not change what follows it. */
  lemma BreakOrNot(brk: string, tail: string)
    requires Stops(tail) && (brk == LINE_BREAK || brk == [])
    ensures Stops(brk + tail) && Inside(brk + tail) == Inside(tail)
  {
    if brk == [] {
      assert brk + tail == tail;
    } else {
      InsideBreak(tail);
    }
  }

  function BreakAt(col: nat): string { if col == 15 then LINE_BREAK else [] }

  lemma EmitCons(bytes: seq<Byte>, col: nat, rest: string)
    requires bytes != []
    ensures Emit(bytes, col) + rest
         == Escape(bytes[0]) + (BreakAt(col) + (Emit(bytes[1..], NextCol(col)) + rest))
  {
    Reassociate(Escape(bytes[0]), BreakAt(col), Emit(bytes[1..], NextCol(col)), rest);
  }

  lemma Reassociate(a: string, b: string, c: string, d: string)
    ensures a + b + c + d == a + (b + (c + d))
  {
  }

  lemma {:induction false} InsideEmit(bytes: seq<Byte>, col: nat, rest: string)
    requires Stops(rest)
    ensures Inside(Emit(bytes, col) + rest) == Prepend(bytes, Inside(rest))
    decreases |bytes|
  {
    if bytes == [] {
      assert Emit(bytes, col) + rest == rest;
      PrependNothing(Inside(rest));
    } else {
      var tail := Emit(bytes[1..], NextCol(col)) + rest;
      EmitCons(bytes, col, rest);
      EmitStops(bytes[1..], NextCol(col), rest);
      BreakOrNot(BreakAt(col), tail);
      InsideEscapes(bytes[0], BreakAt(col) + tail);
      InsideEmit(bytes[1..], NextCol(col), rest);
      PrependPrepend([bytes[0]], bytes[1..], Inside(rest));
      assert [bytes[0]] + bytes[1..] == bytes;
    }
  }

  lemma PrependNothing(r: Option<Lexed>)
    ensures Prepend([], r) == r
  {
    assert r.Some? ==> [] + r.value.bytes == r.value.bytes;
  }

  /** For every input and every starting column, the emitted text spells the bytes. */
  lemma EmitSpells(bytes: seq<Byte>, col: nat)
    ensures Spells(Emit(bytes, col), bytes)
  {
    forall rest: string | Stops(rest)
      ensures Inside(Emit(bytes, col) + rest) == Prepend(bytes, Inside(rest))
    {
      InsideEmit(bytes, col, rest);
    }
  }

  /** Pieces written one after the other, each from its own column, spell the concatenation. */
  lemma SpellsConcat(a: string, x: seq<Byte>, b: string, y: seq<Byte>)
    requires Spells(a, x) && Spells(b, y)
    ensures Spells(a + b, x + y)
  {
    forall rest: string | Stops(rest)
      ensures Inside(a + b + rest) == Prepend(x + y, Inside(rest))
    {
      assert a + b + rest == a + (b + rest);
      assert Stops(b + rest) by {
        if b == [] { assert b + rest == rest; }
      }
      assert Inside(b + rest) == Prepend(y, Inside(rest));
      PrependPrepend(x, y, Inside(rest));
    }
    if a == [] {
      assert a + b == b;
    }
  }

  /** A literal between the header's quote and the footer's quote and semicolon denotes the bytes,
      so `sizeof - 1` is their number. */
  lemma DefinitionReadsBack(text: string, bytes: seq<Byte>, tail: string)
    requires Spells(text, bytes)
    ensures Outside("\"" + text + "\";" + tail) == Some(Lexed(bytes, ";" + tail))
  {
    var end, whole := "\";" + tail, "\"" + text + "\";" + tail;
    assert whole[1..] == text + end;
    assert Outside(whole) == Inside(text + end);
    assert end[1..] == ";" + tail;
    assert Inside(end) == Outside(";" + tail) == Some(Lexed([], ";" + tail));
    assert bytes + [] == bytes;
  }

  // ----- the imperative writers --------------------------------------------------------------

  method WritePadding(out: string, padding: int, col: nat) returns (out': string)
    ensures out' == out + Emit(Zeros(if padding > 0 then padding else 0), col)
  {
    out' := out;
    var left, at := padding, col;
    ghost var n := if padding > 0 then padding else 0;
    while left > 0
      invariant left > 0 ==> left <= n
      invariant out' + Emit(Zeros(if left > 0 then left else 0), at) == out + Emit(Zeros(n), col)
    {
      assert Zeros(left)[1..] == Zeros(left - 1) && Escape(0) == "\\x0";
      EmitTurn(out', Zeros(left), at);
      out', at := Advance(out' + "\\x0", at);
      left := left - 1;
    }
  }

  /** One turn of a writer: escape, line break after column 15, next column. */
  lemma EmitTurn(out: string, bytes: seq<Byte>, col: nat)
    requires bytes != []
    ensures out + Escape(bytes[0]) + BreakAt(col) + Emit(bytes[1..], NextCol(col)) == out + Emit(bytes, col)
  {
    Regroup(out, Escape(bytes[0]), BreakAt(col), Emit(bytes[1..], NextCol(col)));
  }

  lemma Regroup(a: string, b: string, c: string, d: string)
    ensures a + b + c + d == a + (b + c + d)
  {
  }

  /** Moves to the next column, with a line break after the last. */
  method Advance(out: string, col: nat) returns (out': string, col': nat)
    ensures out' == out + BreakAt(col) && col' == NextCol(col)
  {
    if col == 15 {
      out', col' := out + "\"\n\"", 0;
    } else {
      out', col' := out, col + 1;
    }
  }

  lemma ColumnTurn(col: nat, i: nat)
    requires col < 16
    ensures NextCol((col + i) % 16) == (col + i + 1) % 16
  {
  }

  method WriteBytes(out: string, bytes: seq<Byte>, col: nat) returns (out': string, col': nat)
    ensures out' == out + Emit(bytes, col)
    ensures col < 16 ==> col' == (col + |bytes|) % 16
  {
    out', col' := out, col;
    for i := 0 to |bytes|
      invariant out' + Emit(bytes[i..], col') == out + Emit(bytes, col)
      invariant col < 16 ==> col' == (col + i) % 16
    {
      assert bytes[i..][1..] == bytes[i + 1..];
      EmitTurn(out', bytes[i..], col');
      if col < 16 {
        ColumnTurn(col, i);
      }
      out', col' := Advance(out' + Escape(bytes[i]), col');
    }
    assert bytes[|bytes|..] == [];
  }

  // ----- the payload table of the compact writer --------------------------------------------------

  function WideEmit(bytes: seq<Byte>): string {
    if bytes == [] then [] else WideEscape(bytes[0]) + WideEmit(bytes[1..])
  }

  lemma {:induction false} InsideWideEmit(bytes: seq<Byte>, rest: string)
    requires Stops(rest)
    ensures Stops(WideEmit(bytes) + rest)
    ensures Inside(WideEmit(bytes) + rest) == Prepend(bytes, Inside(rest))
  {
    if bytes == [] {
      assert WideEmit(bytes) + rest == rest;
      assert Inside(rest).Some? ==> [] + Inside(rest).value.bytes == Inside(rest).value.bytes;
    } else {
      var tail := WideEmit(bytes[1..]) + rest;
      assert WideEmit(bytes) + rest == WideEscape(bytes[0]) + tail;
      InsideWideEmit(bytes[1..], rest);
      InsideEscapes(bytes[0], tail);
      PrependPrepend([bytes[0]], bytes[1..], Inside(rest));
      assert [bytes[0]] + bytes[1..] == bytes;
    }
  }

  function Line(bytes: seq<Byte>): string {
    "\"" + WideEmit(bytes) + "\"\n"
  }

  lemma OutsideLine(bytes: seq<Byte>, rest: string)
    ensures Outside(Line(bytes) + rest) == Prepend(bytes, Outside(rest))
  {
    var end := "\"\n" + rest;
    LineText(bytes, rest);
    OutsideQuote(WideEmit(bytes) + end);
    InsideWideEmit(bytes, end);
    LineEnd(rest);
  }

  lemma LineText(bytes: seq<Byte>, rest: string)
    ensures Line(bytes) + rest == "\"" + (WideEmit(bytes) + ("\"\n" + rest))
  {
  }

  lemma OutsideQuote(text: string)
    ensures Outside("\"" + text) == Inside(text)
  {
    assert ("\"" + text)[1..] == text;
  }

  lemma LineEnd(rest: string)
    ensures Inside("\"\n" + rest) == Outside(rest)
  {
  }

  /** `text` is a sequence of complete literals that denote `bytes`. */
  ghost predicate Denotes(text: string, bytes: seq<Byte>) {
    forall rest: string {:trigger text + rest} :: Outside(text + rest) == Prepend(bytes, Outside(rest))
  }

  lemma DenotesNothing()
    ensures Denotes([], [])
  {
    forall rest: string ensures Outside([] + rest) == Prepend([], Outside(rest)) {
      assert [] + rest == rest;
      assert Outside(rest).Some? ==> [] + Outside(rest).value.bytes == Outside(rest).value.bytes;
    }
  }

  lemma DenotesLine(text: string, bytes: seq<Byte>, line: seq<Byte>)
    requires Denotes(text, bytes)
    ensures Denotes(text + Line(line), bytes + line)
  {
    forall rest: string ensures Outside(text + Line(line) + rest) == Prepend(bytes + line, Outside(rest)) {
      assert text + Line(line) + rest == text + (Line(line) + rest);
      OutsideLine(line, rest);
      PrependPrepend(bytes, line, Outside(rest));
    }
  }

  /** The payload is written as lines of 16 bytes, an empty one as a single empty literal. In
      either case the literals denote the payload. */
  method WritePayload(payload: seq<Byte>) returns (text: string)
    ensures Denotes(text, payload) && text != []
  {
    text := [];
    var start := 0;
    DenotesNothing();
    while start < |payload|
      invariant 0 <= start <= |payload|
      invariant Denotes(text, payload[..start]) && (start > 0 ==> text != [])
    {
      var end := if start + 16 <= |payload| then start + 16 else |payload|;
      DenotesLine(text, payload[..start], payload[start..end]);
      assert payload[..start] + payload[start..end] == payload[..end];
      text := text + Line(payload[start..end]);
      start := end;
    }
    assert payload[..|payload|] == payload;
    if payload == [] {
      DenotesLine(text, [], []);
      text := text + Line([]);
    }
  }

  // ----- the lines of an array -------------------------------------------------------------------------------

  /** Fewer bytes than the line has room for stay on the line. */
  lemma {:induction false} EmitStaysOnLine(bytes: seq<Byte>, col: nat)
    requires col + |bytes| < 16
    ensures '\n' !in Emit(bytes, col)
  {
    if bytes != [] {
      EmitStaysOnLine(bytes[1..], col + 1);
      EscapeOnLine(bytes[0]);
    }
  }

  lemma EscapeOnLine(b: Byte)
    ensures '\n' !in Escape(b)
  {
    assert forall n: nat :: n < 16 ==> "0123456789abcdef"[n] != '\n';
  }

  /** Bytes that fill the line are followed by its end, and the rest begins the next one. */
  lemma {:induction false} EmitFillsLine(bytes: seq<Byte>, rest: seq<Byte>, col: nat)
    requires col + |bytes| == 16 && bytes != []
    ensures Emit(bytes + rest, col)
         == Emit(bytes[..|bytes| - 1], col) + Escape(bytes[|bytes| - 1]) + LINE_BREAK + Emit(rest, 0)
  {
    assert (bytes + rest)[1..] == bytes[1..] + rest && (bytes + rest)[0] == bytes[0];
    if |bytes| == 1 {
      assert bytes[1..] + rest == rest && bytes[..0] == [];
    } else {
      var tail, last := bytes[1..], bytes[|bytes| - 1];
      EmitFillsLine(tail, rest, col + 1);
      assert bytes[..|bytes| - 1][1..] == tail[..|tail| - 1] && tail[|tail| - 1] == last;
    }
  }
}
