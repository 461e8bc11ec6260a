/** Append-only publication of audited batches, and the table of latest rows. */
module Publication {
  import opened Wrappers

  // A batch is appended to a CSV file; the table shows each condition's latest row. Encoding and
  // decoding CSV text is not modelled: a file is its header and its rows.

  /** `n` and `runs` are the sample count and the configured one; a statistic that is not finite is None. */
  datatype Row = Row(
    batch: string, condition: string, scope: string, benchmark: string, role: string,
    n: nat, runs: nat, statistics: map<string, Option<real>>)

  datatype Csv = Csv(fields: seq<string>, rows: seq<Row>)

  /** One call: the rows of an audited batch, whether the target lies inside the batch's raw evidence,
      and whether it is a dry run. */
  datatype Call = Call(batch: string, fields: seq<string>, rows: seq<Row>, protected: bool, dryRun: bool)

  /** Every row of a batch carries the batch's name. */
  predicate CallOk(c: Call) {
    forall i :: 0 <= i < |c.rows| ==> c.rows[i].batch == c.batch
  }

  function OfBatch(rows: seq<Row>, batch: string): seq<Row> {
    if rows == [] then []
    else OfBatch(rows[..|rows| - 1], batch) + (if rows[|rows| - 1].batch == batch then [rows[|rows| - 1]] else [])
  }

  // ----- one call ----------------------------------------------------------------------------------

  /** What the call writes, or an error: an empty table, a different header, a batch already published
      with other rows, or a protected target. */
  function Step(file: Option<Csv>, c: Call): Result<Csv> {
    if c.rows == [] then Err
    else if file.Some? && file.value.fields != c.fields then Err
    else
      var existing := if file.Some? then file.value.rows else [];
      var previous := OfBatch(existing, c.batch);
      if previous != [] && previous != c.rows then Err
      else if c.protected then Err
      else Ok(Csv(c.fields, if previous != [] then existing else existing + c.rows))
  }

  class ResultFile {
    var file: Option<Csv>

    constructor ()
      ensures file == None
    {
      file := None;
    }

    /** `_publish_csv` */
    method Publish(c: Call) returns (accepted: bool)
      modifies this
      ensures accepted <==> Step(old(file), c).Ok?
      ensures file == if accepted && !c.dryRun then Some(Step(old(file), c).value) else old(file)
    {
      if c.rows == [] {
        return false;
      }
      var existing: seq<Row> := [];
      if file.Some? {
        if file.value.fields != c.fields {
          return false;
        }
        existing := file.value.rows;
      }
      var previous := Filter(existing, c.batch);
      if previous != [] && previous != c.rows {
        return false;
      }
      var content := existing;
      if previous == [] {
        content := existing + c.rows;
      }
      if c.protected {
        return false;
      }
      if !c.dryRun {
        file := Some(Csv(c.fields, content));
      }
      return true;
    }
  }

  method Filter(rows: seq<Row>, batch: string) returns (r: seq<Row>)
    ensures r == OfBatch(rows, batch)
  {
    r := [];
    for i := 0 to |rows|
      invariant r == OfBatch(rows[..i], batch)
    {
      assert rows[..i + 1][..i] == rows[..i];
      if rows[i].batch == batch {
        r := r + [rows[i]];
      }
    }
    assert rows[..|rows|] == rows;
  }

  // ----- runs --------------------------------------------------------------------------------------

  /** The file after a sequence of calls from an absent file. */
  function After(calls: seq<Call>): Option<Csv> {
    if calls == [] then None
    else
      var last := calls[|calls| - 1];
      var before := After(calls[..|calls| - 1]);
      var r := Step(before, last);
      if r.Ok? && !last.dryRun then Some(r.value) else before
  }

  method PublishAll(calls: seq<Call>) returns (out: ResultFile)
    ensures fresh(out) && out.file == After(calls)
  {
    out := new ResultFile();
    for i := 0 to |calls|
      invariant fresh(out) && out.file == After(calls[..i])
    {
      assert calls[..i + 1][..i] == calls[..i];
      var accepted := out.Publish(calls[i]);
    }
    assert calls[..|calls|] == calls;
  }

  predicate Known(firsts: seq<Call>, batch: string) {
    exists i :: 0 <= i < |firsts| && firsts[i].batch == batch
  }

  /** A call is acceptable after the first publications `firsts` if its target is not protected, its
      header is theirs, and its batch is new or has the rows it was first published with. */
  predicate Acceptable(firsts: seq<Call>, c: Call) {
    && c.rows != [] && !c.protected
    && (firsts != [] ==> c.fields == firsts[0].fields)
    && (forall i :: 0 <= i < |firsts| && firsts[i].batch == c.batch ==> firsts[i].rows == c.rows)
  }

  /** The first publications of the distinct batches, in order. */
  function Firsts(calls: seq<Call>): seq<Call> {
    if calls == [] then []
    else
      var last := calls[|calls| - 1];
      var before := Firsts(calls[..|calls| - 1]);
      if Acceptable(before, last) && !last.dryRun && !Known(before, last.batch) then before + [last] else before
  }

  function Concat(firsts: seq<Call>): seq<Row> {
    if firsts == [] then [] else Concat(firsts[..|firsts| - 1]) + firsts[|firsts| - 1].rows
  }

  function FileOf(firsts: seq<Call>): Option<Csv> {
    if firsts == [] then None else Some(Csv(firsts[0].fields, Concat(firsts)))
  }

  /** First publications have distinct batches, one header and well-formed rows. */
  predicate FirstsOk(firsts: seq<Call>) {
    && (forall i :: 0 <= i < |firsts| ==>
          CallOk(firsts[i]) && firsts[i].rows != [] && firsts[i].fields == firsts[0].fields)
    && (forall i, j :: 0 <= i < j < |firsts| ==> firsts[i].batch != firsts[j].batch)
  }

  lemma {:induction false} OfBatchConcat(xs: seq<Row>, ys: seq<Row>, batch: string)
    ensures OfBatch(xs + ys, batch) == OfBatch(xs, batch) + OfBatch(ys, batch)
    decreases |ys|
  {
    if ys == [] {
      assert xs + ys == xs;
    } else {
      assert (xs + ys)[..|xs + ys| - 1] == xs + ys[..|ys| - 1];
      OfBatchConcat(xs, ys[..|ys| - 1], batch);
    }
  }

  lemma {:induction false} OfBatchUniform(rows: seq<Row>, owner: string, batch: string)
    requires forall i :: 0 <= i < |rows| ==> rows[i].batch == owner
    ensures OfBatch(rows, batch) == if owner == batch then rows else []
  {
    if rows != [] {
      OfBatchUniform(rows[..|rows| - 1], owner, batch);
      assert rows == rows[..|rows| - 1] + [rows[|rows| - 1]];
    }
  }

  predicate AllOk(firsts: seq<Call>) {
    forall i :: 0 <= i < |firsts| ==> CallOk(firsts[i])
  }

  lemma {:induction false} NoneOfBatch(firsts: seq<Call>, batch: string)
    requires AllOk(firsts) && forall i :: 0 <= i < |firsts| ==> firsts[i].batch != batch
    ensures OfBatch(Concat(firsts), batch) == []
  {
    if firsts != [] {
      var init, last := firsts[..|firsts| - 1], firsts[|firsts| - 1];
      NoneOfBatch(init, batch);
      OfBatchConcat(Concat(init), last.rows, batch);
      OfBatchUniform(last.rows, last.batch, batch);
    }
  }

  /** The rows of a batch in the file are exactly the rows of its first publication. */
  lemma {:induction false} OfBatchFirst(firsts: seq<Call>, i: nat)
    requires AllOk(firsts) && i < |firsts|
    requires forall j :: 0 <= j < |firsts| && j != i ==> firsts[j].batch != firsts[i].batch
    ensures OfBatch(Concat(firsts), firsts[i].batch) == firsts[i].rows
  {
    var init, last, batch := firsts[..|firsts| - 1], firsts[|firsts| - 1], firsts[i].batch;
    OfBatchLast(init, last, batch);
    assert firsts == init + [last];
    if i == |init| {
      NoneOfBatch(init, batch);
      assert [] + last.rows == last.rows;
    } else {
      OfBatchFirst(init, i);
      assert firsts[i].rows + [] == firsts[i].rows;
    }
  }

  lemma OfBatchLast(init: seq<Call>, last: Call, batch: string)
    requires CallOk(last)
    ensures OfBatch(Concat(init + [last]), batch)
         == OfBatch(Concat(init), batch) + (if last.batch == batch then last.rows else [])
  {
    assert (init + [last])[..|init|] == init;
    OfBatchConcat(Concat(init), last.rows, batch);
    OfBatchUniform(last.rows, last.batch, batch);
  }

  lemma StepMatchesFirsts(firsts: seq<Call>, c: Call)
    requires FirstsOk(firsts) && CallOk(c)
    ensures Step(FileOf(firsts), c).Ok? <==> Acceptable(firsts, c)
    ensures Acceptable(firsts, c) ==>
              Step(FileOf(firsts), c).value == FileOf(if Known(firsts, c.batch) then firsts else firsts + [c]).value
  {
    if Known(firsts, c.batch) {
      var i :| 0 <= i < |firsts| && firsts[i].batch == c.batch;
      OfBatchFirst(firsts, i);
    } else {
      NoneOfBatch(firsts, c.batch);
      assert (firsts + [c])[..|firsts|] == firsts;
    }
  }

  /** Over every sequence of calls, the file is the concatenation of the distinct batches' rows in the
      order of their first publication. */
  lemma {:induction false} FirstsInvariant(calls: seq<Call>)
    requires forall i :: 0 <= i < |calls| ==> CallOk(calls[i])
    ensures FirstsOk(Firsts(calls)) && After(calls) == FileOf(Firsts(calls))
  {
    if calls != [] {
      var last := calls[|calls| - 1];
      var before := Firsts(calls[..|calls| - 1]);
      FirstsInvariant(calls[..|calls| - 1]);
      StepMatchesFirsts(before, last);
      if Acceptable(before, last) && !Known(before, last.batch) {
        FirstsSnoc(before, last);
      }
    }
  }

  lemma FirstsSnoc(firsts: seq<Call>, c: Call)
    requires FirstsOk(firsts) && CallOk(c) && Acceptable(firsts, c) && !Known(firsts, c.batch)
    ensures FirstsOk(firsts + [c])
  {}

  /** Publishing a batch again, a dry run or a rejected call changes nothing; an accepted call of a new
      batch appends its rows and keeps all earlier rows. */
  lemma CallEffect(calls: seq<Call>, c: Call)
    requires CallOk(c) && forall i :: 0 <= i < |calls| ==> CallOk(calls[i])
    ensures var firsts := Firsts(calls);
            if Acceptable(firsts, c) && !c.dryRun && !Known(firsts, c.batch)
            then After(calls + [c]) == Some(Csv(c.fields, Concat(firsts) + c.rows))
            else After(calls + [c]) == After(calls)
  {
    var firsts := Firsts(calls);
    FirstsInvariant(calls);
    assert (calls + [c])[..|calls|] == calls;
    StepMatchesFirsts(firsts, c);
    if !Known(firsts, c.batch) {
      assert (firsts + [c])[..|firsts|] == firsts;
    }
  }

  // ----- csv_table -----------------------------------------------------------------------------------

  /** The last row of a condition. */
  function Latest(rows: seq<Row>, condition: string): Option<Row> {
    if rows == [] then None
    else if rows[|rows| - 1].condition == condition then Some(rows[|rows| - 1])
    else Latest(rows[..|rows| - 1], condition)
  }

  predicate InScope(row: Row, scope: string, benchmark: string) {
    row.scope == scope && row.benchmark == benchmark && row.role == "user-facing"
  }

  /** What a column of the table shows. */
  datatype Column = BatchColumn | SamplesColumn | StatisticColumn(field: string)

  datatype Display = Missing | BatchName(name: string) | Samples(n: nat) | Statistic(value: real)

  /** What is shown for a row, or an error: a sample count other than the configured one, or a statistic that is
      absent or not finite. A condition without a row is shown as missing. */
  function Show(source: Option<Row>, column: Column): Result<Display> {
    if source.None? then Ok(Missing)
    else
      var row := source.value;
      match column
      case BatchColumn => Ok(BatchName(row.batch))
      case SamplesColumn => if row.n == row.runs then Ok(Samples(row.n)) else Err
      case StatisticColumn(field) =>
        if field in row.statistics && row.statistics[field].Some? then Ok(Statistic(row.statistics[field].value)) else Err
  }

  /** Every column of a row can be shown. */
  predicate Shows(source: Option<Row>, columns: map<string, Column>) {
    forall display :: display in columns ==> Show(source, columns[display]).Ok?
  }

  predicate Displays(source: Option<Row>, columns: map<string, Column>, cells: map<string, Display>) {
    && cells.Keys == columns.Keys
    && forall display :: display in columns ==> Show(source, columns[display]) == Ok(cells[display])
  }

  /** A row can be shown if and only if its sample count is the configured one wherever it is asked for, and every
      statistic asked for is finite; the cells then hold the batch, the count and the statistics of that row. */
  lemma ShownExactly(row: Row, columns: map<string, Column>)
    ensures Shows(Some(row), columns) <==>
              && ((exists d :: d in columns && columns[d].SamplesColumn?) ==> row.n == row.runs)
              && forall d :: d in columns && columns[d].StatisticColumn? ==>
                   columns[d].field in row.statistics && row.statistics[columns[d].field].Some?
    ensures forall cells, d :: Displays(Some(row), columns, cells) && d in columns ==>
              && (columns[d].BatchColumn? ==> cells[d] == BatchName(row.batch))
              && (columns[d].SamplesColumn? ==> cells[d] == Samples(row.runs) && row.n == row.runs)
              && (columns[d].StatisticColumn? ==>
                    && columns[d].field in row.statistics && row.statistics[columns[d].field].Some?
                    && cells[d] == Statistic(row.statistics[columns[d].field].value))
    ensures forall cells, d :: Displays(None, columns, cells) && d in columns ==> cells[d] == Missing
  {
    forall d | d in columns
      ensures Show(Some(row), columns[d]).Ok? <==>
                && (columns[d].SamplesColumn? ==> row.n == row.runs)
                && (columns[d].StatisticColumn? ==>
                      columns[d].field in row.statistics && row.statistics[columns[d].field].Some?)
    {
    }
  }

  method ShowRow(source: Option<Row>, columns: map<string, Column>) returns (r: Result<map<string, Display>>)
    ensures r.Ok? <==> Shows(source, columns)
    ensures r.Ok? ==> Displays(source, columns, r.value)
  {
    var rest, cells: map<string, Display> := columns.Keys, map[];
    while rest != {}
      invariant rest <= columns.Keys && cells.Keys == columns.Keys - rest
      invariant forall display :: display in cells ==> Show(source, columns[display]) == Ok(cells[display])
      decreases rest
    {
      var display :| display in rest;
      var shown := Show(source, columns[display]);
      if shown.Err? {
        return Err;
      }
      cells := cells[display := shown.value];
      rest := rest - {display};
    }
    r := Ok(cells);
  }

  /** The latest row of every condition; an error if any row has another scope. */
  method LatestRows(rows: seq<Row>, scope: string, benchmark: string) returns (r: Result<map<string, Row>>)
    ensures r.Ok? <==> forall i :: 0 <= i < |rows| ==> InScope(rows[i], scope, benchmark)
    ensures r.Ok? ==> forall c :: Latest(rows, c) == if c in r.value then Some(r.value[c]) else None
  {
    var latest: map<string, Row> := map[];
    for i := 0 to |rows|
      invariant forall j :: 0 <= j < i ==> InScope(rows[j], scope, benchmark)
      invariant forall c :: Latest(rows[..i], c) == if c in latest then Some(latest[c]) else None
    {
      if !InScope(rows[i], scope, benchmark) {
        return Err;
      }
      assert rows[..i + 1][..i] == rows[..i];
      latest := latest[rows[i].condition := rows[i]];
    }
    assert rows[..|rows|] == rows;
    r := Ok(latest);
  }

  /** The table shows for each label the latest row of its condition, column by column; an error exactly if any row
      has another scope or a row it shows cannot be shown. */
  method CsvTable(rows: seq<Row>, names: map<string, string>, columns: map<string, Column>, scope: string, benchmark: string)
    returns (r: Result<map<string, map<string, Display>>>)
    ensures r.Ok? <==>
              && (forall i :: 0 <= i < |rows| ==> InScope(rows[i], scope, benchmark))
              && (forall name :: name in names ==> Shows(Latest(rows, names[name]), columns))
    ensures r.Ok? ==> r.value.Keys == names.Keys
    ensures r.Ok? ==> forall name :: name in names ==> Displays(Latest(rows, names[name]), columns, r.value[name])
  {
    var latest := LatestRows(rows, scope, benchmark);
    if latest.Err? {
      return Err;
    }
    var rest, table: map<string, map<string, Display>> := names.Keys, map[];
    while rest != {}
      invariant rest <= names.Keys && table.Keys == names.Keys - rest
      invariant forall name :: name in table ==> Shows(Latest(rows, names[name]), columns)
      invariant forall name :: name in table ==> Displays(Latest(rows, names[name]), columns, table[name])
      decreases rest
    {
      var name :| name in rest;
      var source := if names[name] in latest.value then Some(latest.value[names[name]]) else None;
      var shown := ShowRow(source, columns);
      if shown.Err? {
        return Err;
      }
      table := table[name := shown.value];
      rest := rest - {name};
    }
    r := Ok(table);
  }

  lemma {:induction false} LatestConcat(xs: seq<Row>, ys: seq<Row>, condition: string)
    ensures Latest(xs + ys, condition) == if Latest(ys, condition).Some? then Latest(ys, condition) else Latest(xs, condition)
    decreases |ys|
  {
    if ys == [] {
      assert xs + ys == xs;
    } else {
      assert (xs + ys)[..|xs + ys| - 1] == xs + ys[..|ys| - 1];
      LatestConcat(xs, ys[..|ys| - 1], condition);
    }
  }

  /** The table shows, for a condition, its row in the latest first-published batch that has one. */
  lemma {:induction false} LatestBatchWins(firsts: seq<Call>, condition: string, k: nat)
    requires k < |firsts| && Latest(firsts[k].rows, condition).Some?
    requires forall i :: k < i < |firsts| ==> Latest(firsts[i].rows, condition).None?
    ensures Latest(Concat(firsts), condition) == Latest(firsts[k].rows, condition)
  {
    var init, last := firsts[..|firsts| - 1], firsts[|firsts| - 1];
    LatestConcat(Concat(init), last.rows, condition);
    if k < |firsts| - 1 {
      LatestBatchWins(init, condition, k);
    }
  }

  /** A condition that no published batch measured is shown as missing, and no other is. */
  lemma {:induction false} LatestMissing(firsts: seq<Call>, condition: string)
    ensures Latest(Concat(firsts), condition).None? <==>
              forall i :: 0 <= i < |firsts| ==> Latest(firsts[i].rows, condition).None?
  {
    if firsts != [] {
      var init, last := firsts[..|firsts| - 1], firsts[|firsts| - 1];
      LatestConcat(Concat(init), last.rows, condition);
      LatestMissing(init, condition);
      assert forall i :: 0 <= i < |init| ==> init[i] == firsts[i];
    }
  }
}
