/** The feature columns: every column except the quality score, the color
    tag and the derived label, in table order (the list comprehension in
    `main` of src/preprocess.py). */
module Features {
  import opened Tables
  import opened Labeling

  /** The columns that are never model inputs. */
  const Excluded: seq<string> := ["quality", "color", "good"]

  function FeatureColumns(cols: seq<string>): (r: seq<string>)
    ensures |r| <= |cols|
    ensures forall c :: c in r <==> c in cols && c !in Excluded
  {
    if cols == [] then []
    else (if cols[0] in Excluded then [] else [cols[0]]) + FeatureColumns(cols[1..])
  }

  /** The filter works name by name: a single name is kept exactly when it
      is not excluded. */
  lemma FeatureColumnsSingle(c: string)
    ensures FeatureColumns([c]) == if c in Excluded then [] else [c]
  {
  }

  /** Filtering a concatenation filters each part and keeps their order;
      with FeatureColumnsSingle this pins the result down completely: the
      kept names appear in their original order and no other name is
      dropped. */
  lemma {:induction false} FeatureColumnsAppend(a: seq<string>, b: seq<string>)
    ensures FeatureColumns(a + b) == FeatureColumns(a) + FeatureColumns(b)
  {
    if a == [] {
      assert a + b == b;
    } else {
      assert (a + b)[1..] == a[1..] + b;
      FeatureColumnsAppend(a[1..], b);
    }
  }

  /** Distinct column names give distinct feature names. */
  lemma {:induction false} FeatureColumnsDistinct(cols: seq<string>)
    requires NoDuplicates(cols)
    ensures NoDuplicates(FeatureColumns(cols))
  {
    if cols != [] {
      FeatureColumnsDistinct(cols[1..]);
      var rest := FeatureColumns(cols[1..]);
      assert cols[0] !in cols[1..];
      assert cols[0] !in rest;
      if cols[0] !in Excluded {
        var r := FeatureColumns(cols);
        assert r == [cols[0]] + rest;
        forall i, j | 0 <= i < j < |r|
          ensures r[i] != r[j]
        {
          assert r[j] == rest[j - 1] && rest[j - 1] in rest;
          if i > 0 {
            assert r[i] == rest[i - 1];
            assert NoDuplicates(rest);
          }
        }
      } else {
        assert FeatureColumns(cols) == rest;
      }
    }
  }

  /** Selecting features again from the feature list changes nothing. */
  lemma {:induction false} FeatureColumnsIdempotent(cols: seq<string>)
    ensures FeatureColumns(FeatureColumns(cols)) == FeatureColumns(cols)
  {
    if cols != [] {
      var head := if cols[0] in Excluded then [] else [cols[0]];
      FeatureColumnsAppend(head, FeatureColumns(cols[1..]));
      FeatureColumnsIdempotent(cols[1..]);
    }
  }

  /** The label column that labelling adds never becomes a feature: the
      features of the labelled table are those of the raw table. */
  lemma FeaturesOfLabelledTable(t: Table)
    requires HasQuality(t)
    ensures FeatureColumns(CreateLabel(t).columns) == FeatureColumns(t.columns)
  {
    if "good" !in t.columns {
      FeatureColumnsAppend(t.columns, ["good"]);
    }
  }
}
