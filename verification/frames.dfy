/**
 The table shapes the price pipeline passes around, as immutable values.

 A pandas frame is modelled column-major: a sequence of column labels and, for
 the column at position `j`, the sequence of its cells `data[j]`. Labels may
 repeat, exactly as pandas allows; a repeated label is what makes `row[label]`
 yield a collection instead of a single cell.
 */
module Frames {

  datatype Option<+T> = None | Some(value: T)

  /** The exceptions the shaping code raises or lets escape. */
  datatype Error =
    | ValueError(message: string)
    | IndexError

  datatype Result<+T> = Ok(value: T) | Err(error: Error)

  datatype Outcome = Pass | Fail(error: Error)

  /** One cell of a table, identified by its printed (`str`) form; numeric
      conversion of a cell is kept abstract. */
  datatype Scalar = Scalar(text: string)

  /** Column labels of a downloaded frame: single-level, or a two-level
      (field, ticker) pair per column. */
  datatype Labels =
    | Flat(names: seq<string>)
    | Nested(pairs: seq<(string, string)>)
  {
    function Width(): nat {
      match this
      case Flat(names) => |names|
      case Nested(pairs) => |pairs|
    }
  }

  /** The row index of a frame: its optional name and one value per row. */
  datatype Index = Index(name: Option<string>, values: seq<Scalar>)

  /** Every column holds one cell per row. */
  ghost predicate Rectangular(data: seq<seq<Scalar>>, width: nat, height: nat) {
    |data| == width && forall j :: 0 <= j < |data| ==> |data[j]| == height
  }

  /** A frame as the download returns it. */
  datatype Frame = Frame(labels: Labels, index: Index, data: seq<seq<Scalar>>)
  {
    ghost predicate Valid() {
      Rectangular(data, labels.Width(), |index.values|)
    }

    /** pandas' `DataFrame.empty`: no rows or no columns. */
    predicate Empty() {
      |index.values| == 0 || labels.Width() == 0
    }
  }

  /** A frame whose column labels are single-level, still indexed by dates. */
  datatype FlatFrame = FlatFrame(columns: seq<string>, index: Index, data: seq<seq<Scalar>>)
  {
    ghost predicate Valid() {
      Rectangular(data, |columns|, |index.values|)
    }

    /** The same frame seen as a download with flat labels. */
    function AsFrame(): Frame {
      Frame(Flat(columns), index, data)
    }
  }

  /** A frame after `reset_index`: the former index is an ordinary column and
      rows are counted by `height`. */
  datatype Table = Table(columns: seq<string>, data: seq<seq<Scalar>>, height: nat)
  {
    ghost predicate Valid() {
      Rectangular(data, |columns|, height)
    }
  }

  /** The columns the history table keeps, in the order it keeps them. */
  const Canonical: seq<string> := ["Date", "Open", "High", "Low", "Close", "Volume"]

  /** Position of a label in `Canonical`; 6 for every other label. */
  function Rank(c: string): (k: nat)
    ensures k <= |Canonical|
    ensures k < |Canonical| <==> c in Canonical
    ensures k < |Canonical| ==> Canonical[k] == c
  {
    if c == "Date" then 0
    else if c == "Open" then 1
    else if c == "High" then 2
    else if c == "Low" then 3
    else if c == "Close" then 4
    else if c == "Volume" then 5
    else 6
  }

  ghost predicate NoDuplicates(cols: seq<string>) {
    forall i, j :: 0 <= i < j < |cols| ==> cols[i] != cols[j]
  }

  lemma CountLast(cols: seq<string>, c: string)
    requires cols != []
    ensures multiset(cols)[c] ==
      multiset(cols[..|cols| - 1])[c] + if cols[|cols| - 1] == c then 1 else 0
  {
    assert cols == cols[..|cols| - 1] + [cols[|cols| - 1]];
  }

  /** Every position holding label `c`, ascending: what pandas' non-unique
      indexer returns for one label. */
  function Positions(cols: seq<string>, c: string): (ps: seq<nat>)
    ensures forall k :: 0 <= k < |ps| ==> ps[k] < |cols| && cols[ps[k]] == c
    ensures forall k, l :: 0 <= k < l < |ps| ==> ps[k] < ps[l]
    ensures |ps| == multiset(cols)[c]
  {
    if cols == [] then
      []
    else
      var n := |cols| - 1;
      var prefix := cols[..n];
      var init := Positions(prefix, c);
      CountLast(cols, c);
      assert forall j :: 0 <= j < n ==> prefix[j] == cols[j];
      if cols[n] == c then
        var ps := init + [n];
        assert forall k :: 0 <= k < |init| ==> ps[k] == init[k];
        ps
      else
        init
  }

  /** No position holding `c` is missed. */
  lemma {:induction false} PositionsComplete(cols: seq<string>, c: string, j: nat)
    requires j < |cols| && cols[j] == c
    ensures j in Positions(cols, c)
  {
    var n := |cols| - 1;
    if j < n {
      var prefix := cols[..n];
      assert prefix[j] == c;
      PositionsComplete(prefix, c, j);
    }
  }

  /** The right-most position of label `c` in `cols`. */
  function LastIndexOf(cols: seq<string>, c: string): (j: nat)
    requires c in cols
    ensures j < |cols| && cols[j] == c
    ensures forall k :: j < k < |cols| ==> cols[k] != c
  {
    if cols[|cols| - 1] == c then |cols| - 1 else LastIndexOf(cols[..|cols| - 1], c)
  }

  /** The last position of a label is its right-most occurrence. */
  lemma LastPositionIsLastIndex(cols: seq<string>, c: string)
    requires c in cols
    ensures |Positions(cols, c)| > 0
    ensures Positions(cols, c)[|Positions(cols, c)| - 1] == LastIndexOf(cols, c)
  {
    var ps := Positions(cols, c);
    var j := LastIndexOf(cols, c);
    PositionsComplete(cols, c, j);
    var m :| 0 <= m < |ps| && ps[m] == j;
    var last := ps[|ps| - 1];
    assert forall k :: 0 <= k < |ps| ==> ps[k] <= last;
    assert cols[last] == c;
  }

  /** In a label list without repeats, a present label occurs exactly once. */
  lemma {:induction false} UniqueCount(cols: seq<string>, c: string)
    requires NoDuplicates(cols)
    ensures multiset(cols)[c] == if c in cols then 1 else 0
  {
    if cols != [] {
      var tail := cols[1..];
      assert cols == [cols[0]] + tail;
      assert NoDuplicates(tail) by {
        forall i, j | 0 <= i < j < |tail| ensures tail[i] != tail[j] {
          assert tail[i] == cols[i + 1] && tail[j] == cols[j + 1];
        }
      }
      UniqueCount(tail, c);
      if cols[0] == c {
        assert c !in tail by {
          forall i | 0 <= i < |tail| ensures tail[i] != c {
            assert tail[i] == cols[i + 1];
          }
        }
      }
    }
  }
}
