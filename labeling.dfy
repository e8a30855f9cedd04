/** Deriving the binary `good` label from the `quality` column
    (`create_label` in src/preprocess.py). */
module Labeling {
  import opened Tables

  /** Quality at or above this value makes a wine "good". */
  const Threshold: real := 6.0

  /** Every row has a numeric `quality` cell: reading the column and
      comparing it with a number must succeed. */
  predicate HasQuality(t: Table)
  {
    forall i :: 0 <= i < |t.rows| ==> "quality" in t.rows[i] && IsNumeric(t.rows[i]["quality"])
  }

  /** The label derived from one quality cell: the integer 1 or 0. */
  function GoodFlag(quality: Cell): (g: Cell)
    requires IsNumeric(quality)
    ensures g == Int(0) || g == Int(1)
    ensures g == Int(1) <==> NumericValue(quality) >= Threshold
  {
    Int(if NumericValue(quality) >= Threshold then 1 else 0)
  }

  /** A copy of the table with the integer column `good` set in every row.
      A new column goes after the existing ones; an existing `good` column
      keeps its place and has its values replaced. */
  function CreateLabel(t: Table): (out: Table)
    requires HasQuality(t)
    ensures |out.rows| == |t.rows|
    ensures "good" in out.columns
    ensures |t.columns| <= |out.columns| && out.columns[..|t.columns|] == t.columns
    ensures forall c :: c in out.columns ==> c in t.columns || c == "good"
    ensures out.columns == if "good" in t.columns then t.columns else t.columns + ["good"]
    ensures forall i :: 0 <= i < |t.rows| ==>
      out.rows[i].Keys == t.rows[i].Keys + {"good"} &&
      (forall c :: c in t.rows[i] && c != "good" ==> out.rows[i][c] == t.rows[i][c]) &&
      (out.rows[i]["good"] == Int(1) <==> NumericValue(t.rows[i]["quality"]) >= Threshold) &&
      (out.rows[i]["good"] == Int(0) <==> NumericValue(t.rows[i]["quality"]) < Threshold)
  {
    var columns := if "good" in t.columns then t.columns else t.columns + ["good"];
    Table(columns, seq(|t.rows|, i requires 0 <= i < |t.rows| => t.rows[i]["good" := GoodFlag(t.rows[i]["quality"])]))
  }

  /** Labelling keeps a well-formed table well-formed: each row gains
      exactly the one column the column list gains. */
  lemma CreateLabelWellFormed(t: Table)
    requires HasQuality(t) && WellFormed(t)
    ensures WellFormed(CreateLabel(t))
  {
    var out := CreateLabel(t);
    forall i | 0 <= i < |out.rows|
      ensures out.rows[i].Keys == set c | c in out.columns
    {
      assert t.rows[i].Keys == set c | c in t.columns;
      if "good" !in t.columns {
        assert out.columns == t.columns + ["good"];
        assert (set c | c in out.columns) == (set c | c in t.columns) + {"good"};
      }
    }
  }

  /** Labelling an already labelled table changes nothing. */
  lemma CreateLabelIdempotent(t: Table)
    requires HasQuality(t)
    ensures HasQuality(CreateLabel(t))
    ensures CreateLabel(CreateLabel(t)) == CreateLabel(t)
  {
    var once := CreateLabel(t);
    var twice := CreateLabel(once);
    forall i | 0 <= i < |t.rows|
      ensures twice.rows[i] == once.rows[i]
    {
      assert once.rows[i]["quality"] == t.rows[i]["quality"];
    }
  }

  /** The threshold at its edges: quality 5 is not good, 6 and 10 are. */
  lemma GoodFlagExamples()
    ensures GoodFlag(Int(5)) == Int(0)
    ensures GoodFlag(Int(6)) == Int(1)
    ensures GoodFlag(Int(10)) == Int(1)
    ensures GoodFlag(Real(5.9)) == Int(0)
  {
  }
}
