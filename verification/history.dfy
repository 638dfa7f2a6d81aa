/**
 Shaping the downloaded frame into the price-history table
 (`fetch_price_history`, main.py:45-66, with the download itself taken as an
 input value).

 An absent or empty download is refused with a ValueError naming the ticker.
 Otherwise the labels are normalised, the date index becomes a leading column
 (`reset_index`), and the table is cut down to those of Date, Open, High, Low,
 Close and Volume that are present, in that order. Selecting a repeated label
 keeps every column carrying it, in their original order.
 */
module History {
  import opened Frames
  import Columns

  /** The message of the error raised for a missing or empty download. */
  function NoDataMessage(ticker: string): (m: string)
    ensures |ticker| <= |m| && m[|m| - |ticker|..] == ticker
  {
    "データが取得できませんでした: " + ticker
  }

  /** The label pandas' `reset_index` gives the column made from the index:
      its name, or "index" ("level_0" if "index" is taken) when unnamed. */
  function IndexLabel(f: FlatFrame): string {
    match f.index.name
    case Some(n) => n
    case None => if "index" in f.columns then "level_0" else "index"
  }

  /** `reset_index`: the index values become a new first column. pandas refuses
      to insert a label that is already a column. */
  function ResetIndex(f: FlatFrame): (r: Result<Table>)
    requires f.Valid()
    ensures r.Ok? <==> IndexLabel(f) !in f.columns
    ensures r.Err? ==> r.error.ValueError?
    ensures r.Ok? ==> r.value.Valid() && r.value.height == |f.index.values|
    ensures r.Ok? ==> |r.value.columns| == |f.columns| + 1
    ensures r.Ok? ==> r.value.columns[0] == IndexLabel(f) && r.value.data[0] == f.index.values
    ensures r.Ok? ==> r.value.columns[1..] == f.columns && r.value.data[1..] == f.data
    ensures r.Ok? ==> multiset(r.value.columns)[IndexLabel(f)] == 1
  {
    var name := IndexLabel(f);
    if name in f.columns then
      Err(ValueError("cannot insert " + name + ", already exists"))
    else
      var cols := [name] + f.columns;
      assert cols[1..] == f.columns;
      Ok(Table(cols, [f.index.values] + f.data, |f.index.values|))
  }

  /** The labels of `ws` that occur in `cols`, in the order of `ws`. */
  function Present(ws: seq<string>, cols: seq<string>): (r: seq<string>)
    requires forall i, j :: 0 <= i < j < |ws| ==> Rank(ws[i]) < Rank(ws[j])
    ensures forall c :: c in r <==> c in ws && c in cols
    ensures forall i, j :: 0 <= i < j < |r| ==> Rank(r[i]) < Rank(r[j])
  {
    if ws == [] then
      []
    else
      var rest := Present(ws[1..], cols);
      assert ws == [ws[0]] + ws[1..];
      assert forall x :: x in rest ==> Rank(ws[0]) < Rank(x) by {
        forall x | x in rest ensures Rank(ws[0]) < Rank(x) {
          var m :| 0 <= m < |ws[1..]| && ws[1..][m] == x;
          assert ws[m + 1] == x;
        }
      }
      if ws[0] in cols then [ws[0]] + rest else rest
  }

  /** The source's list `[c for c in Canonical if c in columns]`: exactly the
      canonical labels present, each once, in canonical order. */
  function Wanted(cols: seq<string>): (ws: seq<string>)
    ensures forall c :: c in ws <==> c in Canonical && c in cols
    ensures forall i, j :: 0 <= i < j < |ws| ==> Rank(ws[i]) < Rank(ws[j])
    ensures NoDuplicates(ws)
  {
    assert forall i :: 0 <= i < |Canonical| ==> Rank(Canonical[i]) == i;
    Present(Canonical, cols)
  }

  /** The column positions `df[ws]` selects: for each wanted label in turn,
      all the positions carrying it. */
  function Gather(cols: seq<string>, ws: seq<string>): (idx: seq<nat>)
    ensures forall k :: 0 <= k < |idx| ==> idx[k] < |cols| && cols[idx[k]] in ws
  {
    if ws == [] then [] else Positions(cols, ws[0]) + Gather(cols, ws[1..])
  }

  function Repeat(c: string, n: nat): (r: seq<string>)
    ensures |r| == n && forall i :: 0 <= i < n ==> r[i] == c
  {
    if n == 0 then [] else [c] + Repeat(c, n - 1)
  }

  /** Reference description of the projected labels: each wanted label once
      per column that carries it. */
  function ExpectedFrom(cols: seq<string>, ws: seq<string>): (r: seq<string>)
    ensures forall i :: 0 <= i < |r| ==> r[i] in ws
  {
    if ws == [] then [] else Repeat(ws[0], multiset(cols)[ws[0]]) + ExpectedFrom(cols, ws[1..])
  }

  function ExpectedColumns(cols: seq<string>): seq<string> {
    ExpectedFrom(cols, Wanted(cols))
  }

  /** The labels at a list of positions. */
  function LabelsAt(cols: seq<string>, idx: seq<nat>): (r: seq<string>)
    requires forall k :: 0 <= k < |idx| ==> idx[k] < |cols|
    ensures |r| == |idx| && forall k :: 0 <= k < |idx| ==> r[k] == cols[idx[k]]
  {
    seq(|idx|, k requires 0 <= k < |idx| => cols[idx[k]])
  }

  lemma LabelsAtConcat(cols: seq<string>, a: seq<nat>, b: seq<nat>)
    requires forall k :: 0 <= k < |a| ==> a[k] < |cols|
    requires forall k :: 0 <= k < |b| ==> b[k] < |cols|
    ensures LabelsAt(cols, a + b) == LabelsAt(cols, a) + LabelsAt(cols, b)
  {
    var ab := a + b;
    assert forall k :: 0 <= k < |ab| ==> ab[k] < |cols|;
    assert |LabelsAt(cols, ab)| == |LabelsAt(cols, a) + LabelsAt(cols, b)|;
  }

  lemma PositionsLabels(cols: seq<string>, c: string)
    ensures LabelsAt(cols, Positions(cols, c)) == Repeat(c, multiset(cols)[c])
  {
  }

  /** The gathered positions carry exactly the reference labels. */
  lemma {:induction false} GatherLabels(cols: seq<string>, ws: seq<string>)
    ensures LabelsAt(cols, Gather(cols, ws)) == ExpectedFrom(cols, ws)
  {
    if ws != [] {
      var ps := Positions(cols, ws[0]);
      var rest := Gather(cols, ws[1..]);
      GatherLabels(cols, ws[1..]);
      PositionsLabels(cols, ws[0]);
      LabelsAtConcat(cols, ps, rest);
      assert Gather(cols, ws) == ps + rest;
    }
  }

  /** The columns at positions `idx`, in that order, with all rows. */
  function Pick(t: Table, idx: seq<nat>): (r: Table)
    requires t.Valid()
    requires forall k :: 0 <= k < |idx| ==> idx[k] < |t.columns|
    ensures r.Valid() && r.height == t.height
    ensures r.columns == LabelsAt(t.columns, idx)
    ensures forall k :: 0 <= k < |idx| ==> r.data[k] == t.data[idx[k]]
  {
    Table(LabelsAt(t.columns, idx), seq(|idx|, k requires 0 <= k < |idx| => t.data[idx[k]]), t.height)
  }

  /** The positions `df[Wanted(df.columns)]` selects. */
  function Selection(cols: seq<string>): (idx: seq<nat>)
    ensures forall k :: 0 <= k < |idx| ==> idx[k] < |cols|
    ensures LabelsAt(cols, idx) == ExpectedColumns(cols)
  {
    GatherLabels(cols, Wanted(cols));
    Gather(cols, Wanted(cols))
  }

  /** `df[cols].copy()` with `cols = Wanted(df.columns)`: the rows are kept,
      the columns become the reference label list, and each kept column holds
      the cells of an input column with the same label. */
  function Project(t: Table): (r: Table)
    requires t.Valid()
    ensures r.Valid() && r.height == t.height
    ensures r.columns == ExpectedColumns(t.columns)
    ensures forall k :: 0 <= k < |r.columns| ==>
      Selection(t.columns)[k] < |t.columns| &&
      t.columns[Selection(t.columns)[k]] == r.columns[k] &&
      r.data[k] == t.data[Selection(t.columns)[k]]
  {
    Pick(t, Selection(t.columns))
  }

  /** A label carried by exactly one column keeps that column's cells through
      the projection, and is still carried by exactly one column. */
  lemma ProjectSoleColumn(t: Table, c: string, j: nat)
    requires t.Valid() && c in Canonical
    requires j < |t.columns| && t.columns[j] == c && multiset(t.columns)[c] == 1
    ensures multiset(Project(t).columns)[c] == 1
    ensures c in Project(t).columns
    ensures Project(t).data[LastIndexOf(Project(t).columns, c)] == t.data[j]
  {
    var p := Project(t);
    ProjectCounts(t, c);
    assert c in p.columns by {
      assert multiset(p.columns)[c] > 0;
    }
    var k := LastIndexOf(p.columns, c);
    var j' := Selection(t.columns)[k];
    assert j' < |t.columns| && t.columns[j'] == c && p.data[k] == t.data[j'];
    PositionsComplete(t.columns, c, j);
    PositionsComplete(t.columns, c, j');
    SolePosition(t.columns, c, j, j');
  }

  /** Two positions of a label carried by one column only are the same. */
  lemma SolePosition(cols: seq<string>, c: string, i: nat, j: nat)
    requires i in Positions(cols, c) && j in Positions(cols, c)
    requires multiset(cols)[c] == 1
    ensures i == j
  {
    var ps := Positions(cols, c);
    assert ps == [ps[0]];
  }

  lemma {:induction false} RepeatCount(c: string, n: nat, x: string)
    ensures multiset(Repeat(c, n))[x] == if x == c then n else 0
  {
    if n > 0 {
      RepeatCount(c, n - 1, x);
      assert Repeat(c, n) == [c] + Repeat(c, n - 1);
    }
  }

  /** Dropping the first label of a repeat-free list leaves a repeat-free list
      that no longer holds that label. */
  lemma TailNoDuplicates(ws: seq<string>)
    requires NoDuplicates(ws) && ws != []
    ensures NoDuplicates(ws[1..]) && ws[0] !in ws[1..]
    ensures forall x :: x in ws <==> x == ws[0] || x in ws[1..]
  {
    var tail := ws[1..];
    assert ws == [ws[0]] + tail;
    forall i, j | 0 <= i < j < |tail| ensures tail[i] != tail[j] {
      assert tail[i] == ws[i + 1] && tail[j] == ws[j + 1];
    }
    forall i | 0 <= i < |tail| ensures tail[i] != ws[0] {
      assert tail[i] == ws[i + 1];
    }
  }

  lemma {:induction false} ExpectedCount(cols: seq<string>, ws: seq<string>, x: string)
    requires NoDuplicates(ws)
    ensures multiset(ExpectedFrom(cols, ws))[x] == if x in ws then multiset(cols)[x] else 0
  {
    if ws != [] {
      var tail := ws[1..];
      TailNoDuplicates(ws);
      ExpectedCount(cols, tail, x);
      var head := Repeat(ws[0], multiset(cols)[ws[0]]);
      RepeatCount(ws[0], multiset(cols)[ws[0]], x);
      assert ExpectedFrom(cols, ws) == head + ExpectedFrom(cols, tail);
      assert multiset(ExpectedFrom(cols, ws))[x] ==
        multiset(head)[x] + multiset(ExpectedFrom(cols, tail))[x];
    }
  }

  /** Every canonical label keeps all of its columns; every other label loses
      all of them. In particular a canonical label is present after the
      projection exactly when it was present before. */
  lemma ProjectCounts(t: Table, x: string)
    requires t.Valid()
    ensures multiset(Project(t).columns)[x] == if x in Canonical then multiset(t.columns)[x] else 0
  {
    ExpectedCount(t.columns, Wanted(t.columns), x);
    if x in Canonical && x !in t.columns {
      assert multiset(t.columns)[x] == 0;
    }
  }

  lemma {:induction false} ExpectedOrdered(cols: seq<string>, ws: seq<string>)
    requires forall i, j :: 0 <= i < j < |ws| ==> Rank(ws[i]) < Rank(ws[j])
    ensures forall i, j :: 0 <= i < j < |ExpectedFrom(cols, ws)| ==>
      Rank(ExpectedFrom(cols, ws)[i]) <= Rank(ExpectedFrom(cols, ws)[j])
  {
    if ws != [] {
      var head := Repeat(ws[0], multiset(cols)[ws[0]]);
      var tail := ExpectedFrom(cols, ws[1..]);
      ExpectedOrdered(cols, ws[1..]);
      var r := ExpectedFrom(cols, ws);
      assert r == head + tail;
      forall i, j | 0 <= i < j < |r| ensures Rank(r[i]) <= Rank(r[j]) {
        if j >= |head| {
          var w := tail[j - |head|];
          assert w in ws[1..];
          var m :| 0 <= m < |ws[1..]| && ws[1..][m] == w;
          assert ws[m + 1] == w;
          if i < |head| {
            assert Rank(r[i]) == Rank(ws[0]) < Rank(ws[m + 1]);
          }
        }
      }
    }
  }

  /** The projected columns follow the canonical order. */
  lemma ProjectOrdered(t: Table)
    requires t.Valid()
    ensures forall i, j :: 0 <= i < j < |Project(t).columns| ==>
      Rank(Project(t).columns[i]) <= Rank(Project(t).columns[j])
  {
    ExpectedOrdered(t.columns, Wanted(t.columns));
  }

  lemma {:induction false} ExpectedUnique(cols: seq<string>, ws: seq<string>)
    requires NoDuplicates(cols)
    requires forall c :: c in ws ==> c in cols
    ensures ExpectedFrom(cols, ws) == ws
  {
    if ws != [] {
      UniqueCount(cols, ws[0]);
      ExpectedUnique(cols, ws[1..]);
      assert Repeat(ws[0], 1) == [ws[0]];
      assert ws == [ws[0]] + ws[1..];
    }
  }

  /** With no repeated labels the projection's columns are exactly the
      canonical labels present, in canonical order. */
  lemma ProjectUniqueLabels(t: Table)
    requires t.Valid() && NoDuplicates(t.columns)
    ensures Project(t).columns == Wanted(t.columns)
  {
    ExpectedUnique(t.columns, Wanted(t.columns));
  }

  /** Positions that carry the same label appear in increasing order. */
  ghost predicate LabelOrdered(cols: seq<string>, idx: seq<nat>) {
    forall k, l ::
      (0 <= k < l < |idx| && idx[k] < |cols| && idx[l] < |cols| && cols[idx[k]] == cols[idx[l]])
      ==> idx[k] < idx[l]
  }

  lemma ConcatLabelOrdered(cols: seq<string>, a: seq<nat>, b: seq<nat>)
    requires LabelOrdered(cols, a) && LabelOrdered(cols, b)
    requires forall i, j :: 0 <= i < |a| && 0 <= j < |b| && a[i] < |cols| && b[j] < |cols| ==>
      cols[a[i]] != cols[b[j]]
    ensures LabelOrdered(cols, a + b)
  {
    var idx := a + b;
    forall k, l | 0 <= k < l < |idx| && idx[k] < |cols| && idx[l] < |cols| && cols[idx[k]] == cols[idx[l]]
      ensures idx[k] < idx[l]
    {
      if l < |a| {
        assert idx[k] == a[k] && idx[l] == a[l];
      } else if k >= |a| {
        assert idx[k] == b[k - |a|] && idx[l] == b[l - |a|];
      }
    }
  }

  lemma {:induction false} GatherKeepsOrder(cols: seq<string>, ws: seq<string>)
    requires NoDuplicates(ws)
    ensures LabelOrdered(cols, Gather(cols, ws))
  {
    if ws != [] {
      var tail := ws[1..];
      TailNoDuplicates(ws);
      GatherKeepsOrder(cols, tail);
      var ps := Positions(cols, ws[0]);
      var rest := Gather(cols, tail);
      forall i, j | 0 <= i < |ps| && 0 <= j < |rest|
        ensures cols[ps[i]] != cols[rest[j]]
      {
        var w := cols[rest[j]];
        var m :| 0 <= m < |tail| && tail[m] == w;
        assert ws[m + 1] == w;
      }
      ConcatLabelOrdered(cols, ps, rest);
    }
  }

  /** Columns sharing a label keep their original relative order. */
  lemma ProjectKeepsOrder(t: Table)
    requires t.Valid()
    ensures var sel := Selection(t.columns);
      forall k, l ::
        (0 <= k < l < |Project(t).columns| && Project(t).columns[k] == Project(t).columns[l])
        ==> sel[k] < sel[l]
  {
    GatherKeepsOrder(t.columns, Wanted(t.columns));
  }

  /** `fetch_price_history` after the download: refuse a missing or empty
      frame, otherwise normalise, reset the index and project. */
  function Fetch(ticker: string, download: Option<Frame>): (r: Result<Table>)
    requires download.Some? ==> download.value.Valid()
    ensures download.None? || download.value.Empty() ==> r == Err(ValueError(NoDataMessage(ticker)))
    ensures r.Ok? ==> r.value.Valid() && r.value.height == |download.value.index.values| > 0
    ensures r.Ok? ==> forall c :: c in r.value.columns ==> c in Canonical
  {
    if download.None? || download.value.Empty() then
      Err(ValueError(NoDataMessage(ticker)))
    else
      match ResetIndex(Columns.Normalize(download.value))
      case Err(e) => Err(e)
      case Ok(t) =>
        var p := Project(t);
        assert forall c :: c in p.columns ==> c in Canonical by {
          forall c | c in p.columns ensures c in Canonical {
            ProjectCounts(t, c);
          }
        }
        Ok(p)
  }

  /** A non-empty download fails only when the reset-index label is already a
      column; otherwise the table is the projection of the reset frame. */
  lemma FetchSucceedsIff(ticker: string, f: Frame)
    requires f.Valid() && !f.Empty()
    ensures Fetch(ticker, Some(f)).Ok? <==> IndexLabel(Columns.Normalize(f)) !in Columns.Normalize(f).columns
    ensures Fetch(ticker, Some(f)).Ok? ==>
      Fetch(ticker, Some(f)).value == Project(ResetIndex(Columns.Normalize(f)).value)
  {
  }
}
