/** The plotting preparation of `utils/preprocess.py`: melting selected
    metric columns of a per-minute frame into long form with readable metric
    names, and extending a cumulative series so that it reaches minute 90. */
module Preprocess {
  import opened Basics
  import opened Seqs

  /** A cell of a data frame, as far as these operations distinguish. */
  datatype Cell = IntCell(n: int) | TextCell(text: string) | NullCell

  type Row = map<string, Cell>

  datatype FrameData = FrameData(columns: seq<string>, rows: seq<Row>)

  /** A data frame: every row has a cell in every column. */
  type Frame = f: FrameData | forall i :: 0 <= i < |f.rows| ==> forall c :: c in f.columns ==> c in f.rows[i]
    witness FrameData([], [])

  // prepare_plot_data

  /** `value_vars` as passed: a single column name or a list of them. */
  datatype ValueVars = Name(name: string) | Names(names: seq<string>)

  /** A string `value_vars` is treated as the one-element list. */
  function AsList(v: ValueVars): (r: seq<string>)
    ensures v.Name? ==> r == [v.name]
    ensures v.Names? ==> r == v.names
  {
    match v
    case Name(n) => [n]
    case Names(ns) => ns
  }

  /** The requested columns the frame has, in request order. */
  function Matched(vars: seq<string>, columns: seq<string>): (r: seq<string>)
    ensures |r| <= |vars|
    ensures forall i :: 0 <= i < |r| ==> r[i] in vars && r[i] in columns
    ensures forall i :: 0 <= i < |vars| && vars[i] in columns ==> vars[i] in r
  {
    if vars == [] then []
    else
      var v := vars[|vars| - 1];
      Matched(vars[..|vars| - 1], columns) + (if v in columns then [v] else [])
  }

  /** The requested columns the frame lacks, in request order. */
  function Missing(vars: seq<string>, columns: seq<string>): (r: seq<string>)
    ensures |r| <= |vars|
    ensures forall i :: 0 <= i < |r| ==> r[i] in vars && r[i] !in columns
    ensures forall i :: 0 <= i < |vars| && vars[i] !in columns ==> vars[i] in r
  {
    if vars == [] then []
    else
      var v := vars[|vars| - 1];
      Missing(vars[..|vars| - 1], columns) + (if v in columns then [] else [v])
  }

  /** Every requested column is either matched or missing, exactly once. */
  lemma MatchedMissingPartition(vars: seq<string>, columns: seq<string>)
    ensures |Matched(vars, columns)| + |Missing(vars, columns)| == |vars|
    ensures multiset(Matched(vars, columns)) + multiset(Missing(vars, columns)) == multiset(vars)
  {
    MatchedMissingMultiset(vars, columns);
    assert |multiset(Matched(vars, columns)) + multiset(Missing(vars, columns))| == |multiset(vars)|;
  }

  lemma {:induction false} MatchedMissingMultiset(vars: seq<string>, columns: seq<string>)
    ensures multiset(Matched(vars, columns)) + multiset(Missing(vars, columns)) == multiset(vars)
  {
    if vars != [] {
      var p, v := vars[..|vars| - 1], vars[|vars| - 1];
      MatchedMissingMultiset(p, columns);
      assert vars == p + [v];
      MultisetSnocSplit(Matched(p, columns), Missing(p, columns), p, v);
    }
  }

  function ToUpper(c: char): char { if 'a' <= c <= 'z' then (c as int - 32) as char else c }
  function ToLower(c: char): char { if 'A' <= c <= 'Z' then (c as int + 32) as char else c }

  /** `str.replace('_', ' ')`. */
  function Ununderscored(s: string): (r: string)
    ensures |r| == |s|
    ensures forall i :: 0 <= i < |s| ==> r[i] == if s[i] == '_' then ' ' else s[i]
  {
    if s == [] then [] else Ununderscored(s[..|s| - 1]) + [if s[|s| - 1] == '_' then ' ' else s[|s| - 1]]
  }

  function Lowered(s: string): (r: string)
    ensures |r| == |s| && forall i :: 0 <= i < |s| ==> r[i] == ToLower(s[i])
  {
    if s == [] then [] else Lowered(s[..|s| - 1]) + [ToLower(s[|s| - 1])]
  }

  /** `str.capitalize()`: the first character upper case, the rest lower. */
  function Capitalized(s: string): (r: string)
    ensures |r| == |s|
    ensures |s| > 0 ==> r[0] == ToUpper(s[0]) && forall i :: 1 <= i < |s| ==> r[i] == ToLower(s[i])
  {
    if s == [] then [] else [ToUpper(s[0])] + Lowered(s[1..])
  }

  /** The `Metric` label of a column name. */
  function MetricLabel(column: string): string {
    Capitalized(Ununderscored(column))
  }

  /** A metric label keeps the name's length, has no underscore, starts with
      a character that is not a lower-case letter and continues with no
      upper-case letter: `cum_xg` reads `Cum xg`. */
  lemma MetricLabelShape(column: string)
    ensures var l := MetricLabel(column);
      && |l| == |column|
      && (forall i :: 0 <= i < |l| ==> l[i] != '_')
      && (|l| > 0 ==> !('a' <= l[0] <= 'z'))
      && (forall i :: 1 <= i < |l| ==> !('A' <= l[i] <= 'Z'))
      && (forall i :: 0 <= i < |l| ==> (column[i] == '_' <==> l[i] == ' ') || column[i] == ' ')
  {
    var u := Ununderscored(column);
    var l := MetricLabel(column);
    if u != [] {
      forall i | 1 <= i < |l| ensures l[i] == ToLower(u[i]) {
        assert l[i] == Lowered(u[1..])[i - 1];
      }
    }
  }

  /** One record of the melted frame. */
  datatype MeltedRow = MeltedRow(minutes: Cell, metric: string, value: Cell)

  /** The melted records of one column, row by row. */
  function MeltColumn(f: Frame, column: string): (r: seq<MeltedRow>)
    requires "minutes" in f.columns && column in f.columns
    ensures |r| == |f.rows|
    ensures forall i :: 0 <= i < |f.rows| ==>
      r[i] == MeltedRow(f.rows[i]["minutes"], MetricLabel(column), f.rows[i][column])
  {
    seq(|f.rows|, i requires 0 <= i < |f.rows| => MeltedRow(f.rows[i]["minutes"], MetricLabel(column), f.rows[i][column]))
  }

  lemma {:induction false} BlockBound(k: nat, n: nat, m: nat, i: nat)
    requires k < n && i < m
    ensures k * m + i < n * m
    decreases n - k
  {
    if k + 1 < n {
      BlockBound(k + 1, n, m, i);
      assert (k + 1) * m == k * m + m;
    } else {
      assert n * m == k * m + m;
    }
  }

  /** `data.melt(id_vars=['minutes'], value_vars=columns)`: column after
      column, each over all rows. */
  function Melt(f: Frame, columns: seq<string>): (r: seq<MeltedRow>)
    requires "minutes" in f.columns && forall j :: 0 <= j < |columns| ==> columns[j] in f.columns
    ensures |r| == |columns| * |f.rows|
  {
    if columns == [] then []
    else Melt(f, columns[..|columns| - 1]) + MeltColumn(f, columns[|columns| - 1])
  }

  /** Record `k * rows + i` of the melt is row `i` under column `k`, and
      carries that row's minute. */
  lemma {:induction false} MeltLayout(f: Frame, columns: seq<string>, k: nat, i: nat)
    requires "minutes" in f.columns && forall j :: 0 <= j < |columns| ==> columns[j] in f.columns
    requires k < |columns| && i < |f.rows|
    ensures k * |f.rows| + i < |Melt(f, columns)|
    ensures Melt(f, columns)[k * |f.rows| + i] == MeltedRow(f.rows[i]["minutes"], MetricLabel(columns[k]), f.rows[i][columns[k]])
  {
    var n := |columns|;
    var m := |f.rows|;
    var p := columns[..n - 1];
    BlockBound(k, n, m, i);
    assert |Melt(f, p)| == (n - 1) * m;
    if k < n - 1 {
      MeltLayout(f, p, k, i);
    } else {
      assert k * m == (n - 1) * m;
    }
  }

  /** A position below `n * m` splits into block `j / m` and offset `j % m`. */
  lemma DivBlock(j: nat, n: nat, m: nat) returns (k: nat, i: nat)
    requires j < n * m
    ensures m > 0 && k == j / m && i == j % m && k < n && i < m && j == k * m + i
  {
    k, i := j / m, j % m;
  }

  /** Record `j` is row `j % rows` under column `j / rows`, with that row's
      minute and the column's readable label. */
  predicate RecordAt(f: Frame, columns: seq<string>, records: seq<MeltedRow>, j: nat)
    requires "minutes" in f.columns && forall c :: 0 <= c < |columns| ==> columns[c] in f.columns
    requires j < |records|
  {
    && |f.rows| > 0 && j / |f.rows| < |columns|
    && var row, column := f.rows[j % |f.rows|], columns[j / |f.rows|];
       records[j] == MeltedRow(row["minutes"], MetricLabel(column), row[column])
  }

  /** The records of a melt of `columns`: one per (column, row) pair, each
      read back from its position. */
  predicate MeltedLayout(f: Frame, columns: seq<string>, records: seq<MeltedRow>)
    requires "minutes" in f.columns && forall c :: 0 <= c < |columns| ==> columns[c] in f.columns
  {
    && |records| == |columns| * |f.rows|
    && forall j :: 0 <= j < |records| ==> RecordAt(f, columns, records, j)
  }

  /** Every record of the melt, read back from its position: record `j` is
      row `j % rows` under column `j / rows`. */
  lemma MeltIndexed(f: Frame, columns: seq<string>, j: nat)
    requires "minutes" in f.columns && forall c :: 0 <= c < |columns| ==> columns[c] in f.columns
    requires j < |Melt(f, columns)|
    ensures RecordAt(f, columns, Melt(f, columns), j)
  {
    var k, i := DivBlock(j, |columns|, |f.rows|);
    MeltAt(f, columns, k, i, j);
    RecordFromBlock(f, columns, Melt(f, columns), j, k, i);
  }

  lemma RecordFromBlock(f: Frame, columns: seq<string>, records: seq<MeltedRow>, j: nat, k: nat, i: nat)
    requires "minutes" in f.columns && forall c :: 0 <= c < |columns| ==> columns[c] in f.columns
    requires j < |records| && |f.rows| > 0 && k == j / |f.rows| && i == j % |f.rows|
    requires k < |columns| && i < |f.rows|
    requires records[j] == MeltedRow(f.rows[i]["minutes"], MetricLabel(columns[k]), f.rows[i][columns[k]])
    ensures RecordAt(f, columns, records, j)
  {
  }

  lemma MeltAt(f: Frame, columns: seq<string>, k: nat, i: nat, j: nat)
    requires "minutes" in f.columns && forall c :: 0 <= c < |columns| ==> columns[c] in f.columns
    requires k < |columns| && i < |f.rows| && j == k * |f.rows| + i
    ensures j < |Melt(f, columns)|
    ensures Melt(f, columns)[j] == MeltedRow(f.rows[i]["minutes"], MetricLabel(columns[k]), f.rows[i][columns[k]])
  {
    MeltLayout(f, columns, k, i);
  }

  /** The melt is laid out column after column, each over all rows. */
  lemma MeltAllIndexed(f: Frame, columns: seq<string>)
    requires "minutes" in f.columns && forall c :: 0 <= c < |columns| ==> columns[c] in f.columns
    ensures MeltedLayout(f, columns, Melt(f, columns))
  {
    forall j | 0 <= j < |Melt(f, columns)| ensures RecordAt(f, columns, Melt(f, columns), j) {
      MeltIndexed(f, columns, j);
    }
  }

  /** The result of `prepare_plot_data`: the columnless frame, or the melted
      records under the columns `minutes`, `Metric` and `valueName`. */
  datatype PlotData = EmptyFrame | Melted(valueName: string, records: seq<MeltedRow>)

  /** `prepare_plot_data(data, value_vars, value_name)`. Missing columns are
      only logged; with none matched the result is the empty frame. Otherwise
      `melt` first refuses a `value_name` that is already a column label
      (a ValueError), then raises a KeyError when `minutes` is missing. */
  function PreparePlotData(f: Frame, valueVars: ValueVars, valueName: string): (r: Result<PlotData>)
    ensures var matched := Matched(AsList(valueVars), f.columns);
      && (r == Ok(EmptyFrame) <==> matched == [])
      && (r == Err("ValueError") <==> matched != [] && valueName in f.columns)
      && (r == Err("KeyError") <==> matched != [] && valueName !in f.columns && "minutes" !in f.columns)
      && (r.Err? ==> r == Err("ValueError") || r == Err("KeyError"))
      && (r.Ok? && r.value.Melted? ==>
            && "minutes" in f.columns && valueName !in f.columns && r.value.valueName == valueName
            && MeltedLayout(f, matched, r.value.records))
  {
    var matched := Matched(AsList(valueVars), f.columns);
    if matched == [] then Ok(EmptyFrame)
    else if valueName in f.columns then Err("ValueError")
    else if "minutes" !in f.columns then Err("KeyError")
    else
      MeltAllIndexed(f, matched);
      Ok(Melted(valueName, Melt(f, matched)))
  }

  // extend_data_without_merge

  /** `pd.to_numeric(errors='coerce').fillna(0).astype(int)` on one cell:
      integers stay, decimal digit strings are parsed, anything else
      becomes 0. */
  function MinuteValue(c: Cell): int {
    match c
    case IntCell(n) => n
    case TextCell(s) => if |s| > 0 && forall i :: 0 <= i < |s| ==> IsDigit(s[i]) then ParseDigits(s) else 0
    case NullCell => 0
  }

  /** Every row with its `minutes` cell coerced to an integer. */
  function CoerceMinutes(rows: seq<Row>): (r: seq<Row>)
    requires forall i :: 0 <= i < |rows| ==> "minutes" in rows[i]
    ensures |r| == |rows|
    ensures forall i :: 0 <= i < |rows| ==> r[i] == rows[i]["minutes" := IntCell(MinuteValue(rows[i]["minutes"]))]
  {
    seq(|rows|, i requires 0 <= i < |rows| => rows[i]["minutes" := IntCell(MinuteValue(rows[i]["minutes"]))])
  }

  /** Coercing twice is coercing once, and every minute is then an integer
      cell. */
  lemma CoerceIdempotent(rows: seq<Row>)
    requires forall i :: 0 <= i < |rows| ==> "minutes" in rows[i]
    ensures forall i :: 0 <= i < |CoerceMinutes(rows)| ==> CoerceMinutes(rows)[i]["minutes"].IntCell?
    ensures CoerceMinutes(CoerceMinutes(rows)) == CoerceMinutes(rows)
  {
    var c := CoerceMinutes(rows);
    assert forall i :: 0 <= i < |c| ==> c[i]["minutes" := IntCell(MinuteValue(c[i]["minutes"]))] == c[i];
  }

  /** `data['minutes'].max()` after coercion; `None` for an empty frame,
      whose maximum is NaN. */
  function MaxMinute(rows: seq<Row>): (r: Option<int>)
    requires forall i :: 0 <= i < |rows| ==> "minutes" in rows[i]
    ensures r.None? <==> rows == []
    ensures r.Some? ==> (forall i :: 0 <= i < |rows| ==> MinuteValue(rows[i]["minutes"]) <= r.value)
    ensures r.Some? ==> exists i :: 0 <= i < |rows| && MinuteValue(rows[i]["minutes"]) == r.value
  {
    if rows == [] then None
    else
      var prev := MaxMinute(rows[..|rows| - 1]);
      var last := MinuteValue(rows[|rows| - 1]["minutes"]);
      if prev.None? || prev.value < last then Some(last) else prev
  }

  /** `last_minute < max(last_minute, 90)`: false for NaN. */
  predicate NeedsExtension(rows: seq<Row>)
    requires forall i :: 0 <= i < |rows| ==> "minutes" in rows[i]
  {
    var m := MaxMinute(rows);
    m.Some? && m.value < 90
  }

  /** The rows of the result: the positionally last row repeated at minute
      90 when the frame stops short of it. */
  function ExtendedRows(rows: seq<Row>): seq<Row>
    requires forall i :: 0 <= i < |rows| ==> "minutes" in rows[i]
  {
    if NeedsExtension(rows) then rows + [rows[|rows| - 1]["minutes" := IntCell(90)]] else rows
  }

  /** Exactly one row is added when the latest minute is under 90, and none
      otherwise; the original rows stay in order; the added row is the last
      row at minute 90; a non-empty result reaches minute 90. */
  lemma ExtendedRowsSpec(rows: seq<Row>)
    requires forall i :: 0 <= i < |rows| ==> "minutes" in rows[i]
    ensures var r := ExtendedRows(rows);
      && |r| == |rows| + (if NeedsExtension(rows) then 1 else 0)
      && r[..|rows|] == rows
      && (NeedsExtension(rows) ==> r[|rows|] == rows[|rows| - 1]["minutes" := IntCell(90)])
      && (rows != [] ==> MaxMinute(r).Some? && MaxMinute(r).value >= 90)
  {
    var r := ExtendedRows(rows);
    if NeedsExtension(rows) {
      assert r[..|r| - 1] == rows;
    }
  }

  /** A frame whose rows the operation may change in place. */
  class DataFrame {
    var columns: seq<string>
    var rows: seq<Row>

    ghost predicate Valid()
      reads this
    {
      forall i :: 0 <= i < |rows| ==> forall c :: c in columns ==> c in rows[i]
    }

    constructor (f: Frame)
      ensures Valid() && columns == f.columns && rows == f.rows
    {
      columns := f.columns;
      rows := f.rows;
    }

    /** `pd.concat([data, pd.DataFrame([row])], ignore_index=True)`: a new
        frame. */
    constructor Appended(f: DataFrame, row: Row)
      requires f.Valid() && forall c :: c in f.columns ==> c in row
      ensures Valid() && columns == f.columns && rows == f.rows + [row]
    {
      columns := f.columns;
      rows := f.rows + [row];
    }
  }

  /** `extend_data_without_merge(data, column_name)`. The coercion of
      `minutes` writes into the caller's frame; the extension builds a new
      frame, so the caller's frame never gains the row, and without an
      extension the result is the caller's frame itself. A missing
      `minutes` column raises before anything changes; a missing
      `column_name` raises after the coercion. */
  method ExtendDataWithoutMerge(data: DataFrame, columnName: string) returns (r: Result<DataFrame>)
    requires data.Valid()
    modifies data
    ensures "minutes" !in old(data.columns) ==> r == Err("KeyError") && data.rows == old(data.rows)
    ensures "minutes" in old(data.columns) ==>
      data.Valid() && data.columns == old(data.columns) && data.rows == CoerceMinutes(old(data.rows))
    ensures "minutes" in old(data.columns) && columnName !in old(data.columns) ==> r == Err("KeyError")
    ensures "minutes" in old(data.columns) && columnName in old(data.columns) ==>
      && r.Ok?
      && r.value.Valid()
      && r.value.columns == data.columns
      && r.value.rows == ExtendedRows(data.rows)
      && (NeedsExtension(data.rows) ==> fresh(r.value))
      && (!NeedsExtension(data.rows) ==> r.value == data)
  {
    if "minutes" !in data.columns {
      return Err("KeyError");
    }
    data.rows := CoerceMinutes(data.rows);
    if columnName !in data.columns {
      return Err("KeyError");
    }
    var last := MaxMinute(data.rows);
    if last.Some? && last.value < 90 {
      var lastRow := data.rows[|data.rows| - 1]["minutes" := IntCell(90)];
      var extended := new DataFrame.Appended(data, lastRow);
      return Ok(extended);
    }
    return Ok(data);
  }
}
