/**
 The one-row summary of a history table (`export_summary_csv`,
 main.py:69-92; writing the CSV file is not modelled).

 The summary reads the last row only. `row[label]` yields the single cell
 when the label names one column, and the cells of every such column when it
 names several; the numeric conversions then fall back to the last of them.
 A field whose column is absent is null.
 */
module Summary {
  import opened Frames
  import Text

  /** What `row[label]` yields on a row of the table. */
  datatype Cell = One(v: Scalar) | Many(vs: seq<Scalar>)

  /** The result of `float(x)` or `int(x)` on a cell; the numeric value
      itself is kept abstract. */
  datatype Number = FloatOf(source: Scalar) | IntOf(source: Scalar)

  /** The summary record: ticker, date of the last row, and its prices and
      volume, each null when its column is absent. */
  datatype Record = Record(
    ticker: string,
    latestDate: string,
    open: Option<Number>,
    high: Option<Number>,
    low: Option<Number>,
    close: Option<Number>,
    volume: Option<Number>)

  /** `row[name]` for a label that is a column of the table. */
  function Lookup(t: Table, row: nat, name: string): (c: Cell)
    requires t.Valid() && row < t.height && name in t.columns
    ensures c.One? <==> multiset(t.columns)[name] == 1
    ensures c.Many? ==> |c.vs| == multiset(t.columns)[name] >= 2
    ensures c.One? ==> c.v == t.data[LastIndexOf(t.columns, name)][row]
    ensures c.Many? ==> forall k :: 0 <= k < |c.vs| ==>
      c.vs[k] == t.data[Positions(t.columns, name)[k]][row]
  {
    var ps := Positions(t.columns, name);
    assert |ps| > 0;
    LastPositionIsLastIndex(t.columns, name);
    if |ps| == 1 then
      One(t.data[ps[0]][row])
    else
      Many(seq(|ps|, k requires 0 <= k < |ps| => t.data[ps[k]][row]))
  }

  /** The unwrapping in `_to_float` and `_to_int`: a collection stands for
      its last element. */
  function Unwrap(c: Cell): Scalar
    requires c.Many? ==> c.vs != []
  {
    match c
    case One(v) => v
    case Many(vs) => vs[|vs| - 1]
  }

  /** A looked-up cell unwraps to the cell of the right-most column carrying
      the label. */
  lemma UnwrapIsLastColumn(t: Table, row: nat, name: string)
    requires t.Valid() && row < t.height && name in t.columns
    ensures Unwrap(Lookup(t, row, name)) == t.data[LastIndexOf(t.columns, name)][row]
  {
    var ps := Positions(t.columns, name);
    LastPositionIsLastIndex(t.columns, name);
    assert ps[|ps| - 1] == LastIndexOf(t.columns, name);
  }

  /** `_to_float(latest[name])` if the column is present, otherwise null. */
  function FloatField(t: Table, row: nat, name: string): (r: Option<Number>)
    requires t.Valid() && row < t.height
    ensures r.None? <==> name !in t.columns
    ensures name in t.columns ==> r.value == FloatOf(t.data[LastIndexOf(t.columns, name)][row])
  {
    if name in t.columns then
      UnwrapIsLastColumn(t, row, name);
      Some(FloatOf(Unwrap(Lookup(t, row, name))))
    else
      None
  }

  /** `_to_int(latest[name])` if the column is present, otherwise null. */
  function IntField(t: Table, row: nat, name: string): (r: Option<Number>)
    requires t.Valid() && row < t.height
    ensures r.None? <==> name !in t.columns
    ensures name in t.columns ==> r.value == IntOf(t.data[LastIndexOf(t.columns, name)][row])
  {
    if name in t.columns then
      UnwrapIsLastColumn(t, row, name);
      Some(IntOf(Unwrap(Lookup(t, row, name))))
    else
      None
  }

  /** `str(latest.get("Date", ""))[:10]`. The printed form of a collection is
      pandas' own rendering, taken as the parameter `seriesText`. */
  function LatestDate(t: Table, row: nat, seriesText: seq<Scalar> -> string): (d: string)
    requires t.Valid() && row < t.height
    ensures |d| <= 10
    ensures "Date" !in t.columns ==> d == ""
    ensures multiset(t.columns)["Date"] == 1 ==>
      var text := t.data[LastIndexOf(t.columns, "Date")][row].text;
      d <= text && |d| == if |text| < 10 then |text| else 10
    ensures multiset(t.columns)["Date"] >= 2 ==>
      d == Text.Prefix(seriesText(Lookup(t, row, "Date").vs), 10)
  {
    if "Date" !in t.columns then
      Text.Prefix("", 10)
    else
      UnwrapIsLastColumn(t, row, "Date");
      match Lookup(t, row, "Date")
      case One(v) => Text.Prefix(v.text, 10)
      case Many(vs) => Text.Prefix(seriesText(vs), 10)
  }

  /** `field` is what the summary promises for column `name` of the last row:
      null exactly when the column is absent, and otherwise the conversion of
      the cell in the right-most column carrying the label. */
  ghost predicate Reports(t: Table, name: string, field: Option<Number>, integral: bool)
    requires t.Valid() && t.height > 0
  {
    && (field.None? <==> name !in t.columns)
    && (name in t.columns ==>
          var cell := t.data[LastIndexOf(t.columns, name)][t.height - 1];
          field.value == if integral then IntOf(cell) else FloatOf(cell))
  }

  /** The summary of the last row; `iloc[-1]` on a table without rows raises
      IndexError. */
  function Summarize(t: Table, ticker: string, seriesText: seq<Scalar> -> string): (r: Result<Record>)
    requires t.Valid()
    ensures r.Err? <==> t.height == 0
    ensures r.Err? ==> r.error == IndexError
    ensures r.Ok? ==> r.value.ticker == ticker
    ensures r.Ok? ==> |r.value.latestDate| <= 10
    ensures r.Ok? && "Date" !in t.columns ==> r.value.latestDate == ""
    ensures r.Ok? && multiset(t.columns)["Date"] == 1 ==>
      var text := t.data[LastIndexOf(t.columns, "Date")][t.height - 1].text;
      r.value.latestDate <= text && |r.value.latestDate| == if |text| < 10 then |text| else 10
    ensures r.Ok? && multiset(t.columns)["Date"] >= 2 ==>
      r.value.latestDate == Text.Prefix(seriesText(Lookup(t, t.height - 1, "Date").vs), 10)
    ensures r.Ok? ==> Reports(t, "Open", r.value.open, false)
    ensures r.Ok? ==> Reports(t, "High", r.value.high, false)
    ensures r.Ok? ==> Reports(t, "Low", r.value.low, false)
    ensures r.Ok? ==> Reports(t, "Close", r.value.close, false)
    ensures r.Ok? ==> Reports(t, "Volume", r.value.volume, true)
  {
    if t.height == 0 then
      Err(IndexError)
    else
      var row := t.height - 1;
      Ok(Record(
        ticker,
        LatestDate(t, row, seriesText),
        FloatField(t, row, "Open"),
        FloatField(t, row, "High"),
        FloatField(t, row, "Low"),
        FloatField(t, row, "Close"),
        IntField(t, row, "Volume")))
  }
}
