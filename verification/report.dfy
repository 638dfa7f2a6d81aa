/**
 The column check of the price chart (`export_price_png`, main.py:98-100;
 the plotting itself is not modelled) and what the whole shaping pipeline
 guarantees to the summary and the chart for a downloaded frame.
 */
module Report {
  import opened Frames
  import Columns
  import History
  import Summary
  import Text

  const ChartColumnsMessage := "Date / Close 列がありません。取得データの形式を確認してください。"

  /** The guard at the top of `export_price_png`: both Date and Close must be
      columns of the table. */
  function CheckChartColumns(t: Table): (r: Outcome)
    ensures r.Pass? <==> "Date" in t.columns && "Close" in t.columns
    ensures r.Fail? ==> r.error == ValueError(ChartColumnsMessage)
  {
    if "Date" !in t.columns || "Close" !in t.columns then
      Fail(ValueError(ChartColumnsMessage))
    else
      Pass
  }

  /** A canonical label is a column of the fetched table exactly when it is
      the reset-index label or one of the normalised labels. */
  lemma FetchedHasLabel(ticker: string, f: Frame, c: string)
    requires f.Valid() && History.Fetch(ticker, Some(f)).Ok?
    requires c in Canonical
    ensures c in History.Fetch(ticker, Some(f)).value.columns <==>
      c == History.IndexLabel(Columns.Normalize(f)) || c in Columns.FlattenLabels(f.labels)
  {
    var n := Columns.Normalize(f);
    var t := History.ResetIndex(n).value;
    History.ProjectCounts(t, c);
    assert t.columns == [History.IndexLabel(n)] + n.columns;
    assert c in t.columns <==> multiset(t.columns)[c] > 0;
    assert c in History.Project(t).columns <==> multiset(History.Project(t).columns)[c] > 0;
  }

  /** The chart accepts a fetched table exactly when Date and Close survived
      the shaping. For a download whose index is named "Date", as a daily
      download's is, that is exactly when "Close" was a label at some level. */
  lemma FetchedChartReadyIff(ticker: string, f: Frame)
    requires f.Valid() && History.Fetch(ticker, Some(f)).Ok?
    ensures var name := History.IndexLabel(Columns.Normalize(f));
      CheckChartColumns(History.Fetch(ticker, Some(f)).value).Pass? <==>
        (name == "Date" || "Date" in Columns.FlattenLabels(f.labels)) &&
        (name == "Close" || Columns.CloseAnywhere(f.labels))
    ensures f.index.name == Some("Date") ==>
      (CheckChartColumns(History.Fetch(ticker, Some(f)).value).Pass? <==> Columns.CloseAnywhere(f.labels))
  {
    FetchedHasLabel(ticker, f, "Date");
    FetchedHasLabel(ticker, f, "Close");
    Columns.CloseSurvivesIff(f.labels);
  }

  /** A fetched table always has a summary: it has at least one row. Its close
      is null exactly when the chart's Close column is missing too. */
  lemma FetchedSummaryExists(ticker: string, f: Frame, seriesText: seq<Scalar> -> string)
    requires f.Valid() && History.Fetch(ticker, Some(f)).Ok?
    ensures var t := History.Fetch(ticker, Some(f)).value;
      Summary.Summarize(t, ticker, seriesText).Ok? &&
      (Summary.Summarize(t, ticker, seriesText).value.close.None? <==> "Close" !in t.columns)
  {
  }

  /** For a download indexed by "Date", the summary date is the first ten
      characters of the printed form of the download's last index value. */
  lemma FetchedSummaryDate(ticker: string, f: Frame, seriesText: seq<Scalar> -> string)
    requires f.Valid() && History.Fetch(ticker, Some(f)).Ok?
    requires f.index.name == Some("Date")
    ensures var s := Summary.Summarize(History.Fetch(ticker, Some(f)).value, ticker, seriesText);
      s.Ok? && s.value.latestDate == Text.Prefix(f.index.values[|f.index.values| - 1].text, 10)
  {
    var n := Columns.Normalize(f);
    History.FetchSucceedsIff(ticker, f);
    var t := History.ResetIndex(n).value;
    assert t.columns[0] == "Date" && t.data[0] == f.index.values;
    History.ProjectSoleColumn(t, "Date", 0);
    var p := History.Project(t);
    assert p == History.Fetch(ticker, Some(f)).value;
    var text := f.index.values[|f.index.values| - 1].text;
    assert p.data[LastIndexOf(p.columns, "Date")][p.height - 1].text == text;
    var d := Summary.Summarize(p, ticker, seriesText).value.latestDate;
    Text.PrefixUnique(text, 10, d);
  }
}
