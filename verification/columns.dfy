/**
 Collapsing the download's column labels to a single level
 (`_normalize_yfinance_columns`, main.py:24-42).

 Single-level labels pass through. For two-level labels, the level that
 contains "Close" becomes the label, the first level winning when both do;
 when neither does, each pair is joined with "_" and stripped. Only the labels
 change: index and cells are carried over untouched.
 */
module Columns {
  import opened Frames
  import Text

  function FirstLevel(pairs: seq<(string, string)>): (r: seq<string>)
    ensures |r| == |pairs| && forall i :: 0 <= i < |pairs| ==> r[i] == pairs[i].0
  {
    seq(|pairs|, i requires 0 <= i < |pairs| => pairs[i].0)
  }

  function SecondLevel(pairs: seq<(string, string)>): (r: seq<string>)
    ensures |r| == |pairs| && forall i :: 0 <= i < |pairs| ==> r[i] == pairs[i].1
  {
    seq(|pairs|, i requires 0 <= i < |pairs| => pairs[i].1)
  }

  /** The last-resort label for one column. */
  function JoinLabel(pair: (string, string)): string {
    Text.Strip(pair.0 + "_" + pair.1)
  }

  /** The single-level label list the normalisation assigns. */
  function FlattenLabels(labels: Labels): (r: seq<string>)
    ensures |r| == labels.Width()
  {
    match labels
    case Flat(names) => names
    case Nested(pairs) =>
      if "Close" in FirstLevel(pairs) then FirstLevel(pairs)
      else if "Close" in SecondLevel(pairs) then SecondLevel(pairs)
      else seq(|pairs|, i requires 0 <= i < |pairs| => JoinLabel(pairs[i]))
  }

  function Normalize(f: Frame): (r: FlatFrame)
    ensures |r.columns| == f.labels.Width()
    ensures r.index == f.index && r.data == f.data
    ensures f.Valid() ==> r.Valid()
  {
    FlatFrame(FlattenLabels(f.labels), f.index, f.data)
  }

  /** "Close" occurs somewhere among the labels, at either level. */
  predicate CloseAnywhere(labels: Labels) {
    match labels
    case Flat(names) => "Close" in names
    case Nested(pairs) => "Close" in FirstLevel(pairs) || "Close" in SecondLevel(pairs)
  }

  /** Single-level labels are left as they are, so normalising an already
      normalised frame changes nothing. */
  lemma NormalizeFlatIdentity(f: Frame)
    ensures f.labels.Flat? ==> Normalize(f).columns == f.labels.names
    ensures Normalize(Normalize(f).AsFrame()) == Normalize(f)
  {
  }

  /** With "Close" among the first-level labels, every column takes its
      first-level label, whatever the second level holds. */
  lemma FirstLevelWins(pairs: seq<(string, string)>)
    requires exists i :: 0 <= i < |pairs| && pairs[i].0 == "Close"
    ensures forall i :: 0 <= i < |pairs| ==> FlattenLabels(Nested(pairs))[i] == pairs[i].0
  {
    var i :| 0 <= i < |pairs| && pairs[i].0 == "Close";
    assert FirstLevel(pairs)[i] == "Close";
  }

  /** With "Close" only among the second-level labels, every column takes its
      second-level label. */
  lemma SecondLevelFallback(pairs: seq<(string, string)>)
    requires forall i :: 0 <= i < |pairs| ==> pairs[i].0 != "Close"
    requires exists i :: 0 <= i < |pairs| && pairs[i].1 == "Close"
    ensures forall i :: 0 <= i < |pairs| ==> FlattenLabels(Nested(pairs))[i] == pairs[i].1
  {
    var i :| 0 <= i < |pairs| && pairs[i].1 == "Close";
    assert SecondLevel(pairs)[i] == "Close";
  }

  /** Without "Close" at either level, column `i` is labelled by its two
      levels joined with "_" and stripped, and that label always keeps the "_". */
  lemma JoinedFallback(pairs: seq<(string, string)>)
    requires forall i :: 0 <= i < |pairs| ==> pairs[i].0 != "Close" && pairs[i].1 != "Close"
    ensures forall i :: 0 <= i < |pairs| ==>
      FlattenLabels(Nested(pairs))[i] == Text.Strip(pairs[i].0 + "_" + pairs[i].1)
    ensures forall i :: 0 <= i < |pairs| ==> '_' in FlattenLabels(Nested(pairs))[i]
  {
    forall i | 0 <= i < |pairs|
      ensures '_' in JoinLabel(pairs[i])
    {
      JoinKeepsUnderscore(pairs[i]);
    }
  }

  lemma JoinKeepsUnderscore(pair: (string, string))
    ensures '_' in JoinLabel(pair)
  {
    var s := pair.0 + "_" + pair.1;
    assert s[|pair.0|] == '_';
    Text.StripKeepsNonSpace(s, |pair.0|);
  }

  /** A joined fallback label is never one of the canonical column names, since
      none of those contains "_". */
  lemma JoinedNeverCanonical(pair: (string, string))
    ensures JoinLabel(pair) !in Canonical
  {
    JoinKeepsUnderscore(pair);
  }

  /** After normalisation "Close" is a column label exactly when it was a label
      at some level before. */
  lemma CloseSurvivesIff(labels: Labels)
    ensures "Close" in FlattenLabels(labels) <==> CloseAnywhere(labels)
  {
    if labels.Nested? && !CloseAnywhere(labels) {
      var pairs := labels.pairs;
      var r := FlattenLabels(labels);
      if "Close" in r {
        var i :| 0 <= i < |r| && r[i] == "Close";
        assert r[i] == JoinLabel(pairs[i]);
        JoinedNeverCanonical(pairs[i]);
        assert false;
      }
    }
  }
}
