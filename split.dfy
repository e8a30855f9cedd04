/** The stratified train/test split (`stratified_split` in
    src/preprocess.py). The seeded shuffle is an input: `perm` lists, for
    each position of the shuffled table, the input row placed there. */
module Split {
  import opened Tables

  /** Every row has the label column, so `df[col]` can be read. */
  predicate Labelled(s: seq<Row>, col: string)
  {
    forall i :: 0 <= i < |s| ==> col in s[i]
  }

  /** The label column, row by row. */
  function Labels(s: seq<Row>, col: string): seq<Cell>
    requires Labelled(s, col)
  {
    seq(|s|, i requires 0 <= i < |s| => s[i][col])
  }

  /** The shuffled, renumbered table: position k holds input row perm[k]. */
  function Shuffle(rows: seq<Row>, perm: seq<nat>): (df: seq<Row>)
    requires IsPermutation(perm, |rows|)
    ensures |df| == |rows|
    ensures multiset(df) == multiset(rows)
  {
    PermutationBounded(perm, |rows|);
    SelectPermutation(rows, perm);
    Select(rows, perm)
  }

  /** Shuffling keeps the label column readable. */
  lemma ShuffleLabelled(rows: seq<Row>, perm: seq<nat>, col: string)
    requires IsPermutation(perm, |rows|) && Labelled(rows, col)
    ensures Labelled(Shuffle(rows, perm), col)
  {
    var df := Shuffle(rows, perm);
    forall i | 0 <= i < |df|
      ensures col in df[i]
    {
      assert df[i] in multiset(rows);
    }
  }

  /** The distinct values of `s` in order of first appearance (pandas
      `unique`): an entry is kept exactly when it did not occur before. */
  function Unique(s: seq<Cell>): (u: seq<Cell>)
    ensures NoDuplicates(u)
    ensures forall x :: x in u <==> x in s
  {
    if s == [] then []
    else
      var init, last := s[..|s| - 1], s[|s| - 1];
      assert s == init + [last];
      Unique(init) + (if last in init then [] else [last])
  }

  /** The values met in the first k entries are listed first: `Unique`
      visits values in order of first appearance. */
  lemma {:induction false} UniqueOrder(s: seq<Cell>, k: nat)
    requires k <= |s|
    ensures Unique(s[..k]) <= Unique(s)
  {
    if k < |s| {
      var init := s[..|s| - 1];
      assert init[..k] == s[..k];
      UniqueOrder(init, k);
    } else {
      assert s[..k] == s;
    }
  }

  /** The positions of the rows labelled `v`, ascending: the index of
      `df[df[col] == v]` on a renumbered table. */
  function GroupIdx(s: seq<Row>, col: string, v: Cell): (g: seq<nat>)
    ensures forall k :: 0 <= k < |g| ==> g[k] < |s| && HasLabel(s[g[k]], col, v)
  {
    if s == [] then []
    else
      var n := |s| - 1;
      GroupIdx(s[..n], col, v) + (if HasLabel(s[n], col, v) then [n] else [])
  }

  /** Each position appears in its group once and in no other group. */
  lemma {:induction false} GroupIdxCount(s: seq<Row>, col: string, v: Cell, i: nat)
    ensures multiset(GroupIdx(s, col, v))[i] == if i < |s| && HasLabel(s[i], col, v) then 1 else 0
  {
    if s != [] {
      var n := |s| - 1;
      var b := HasLabel(s[n], col, v);
      GroupIdxCount(s[..n], col, v, i);
      CountSnoc(GroupIdx(s[..n], col, v), n, b, i);
      if i < n {
        assert s[..n][i] == s[i];
      }
    }
  }

  /** The group's positions pick out exactly the rows labelled `v`, in
      their order in the table. */
  lemma {:induction false} GroupSelect(s: seq<Row>, col: string, v: Cell)
    ensures Select(s, GroupIdx(s, col, v)) == RowsWith(s, col, v)
  {
    if s != [] {
      var n := |s| - 1;
      var g := GroupIdx(s[..n], col, v);
      var tail: seq<nat> := if HasLabel(s[n], col, v) then [n] else [];
      GroupSelect(s[..n], col, v);
      SelectPrefix(s, n, g);
      SelectAppend(s, g, tail);
    }
  }

  /** How many rows of a group of `n` go to test: floor(frac * n). */
  function TestCount(frac: real, n: nat): (k: nat)
    requires 0.0 <= frac <= 1.0
    ensures k <= n
    ensures k as real <= frac * n as real < k as real + 1.0
  {
    assert 0.0 <= frac * n as real <= n as real;
    (frac * n as real).Floor
  }

  /** The test positions: for each label in `order`, the first
      TestCount of its group, groups concatenated in that order. */
  function TestIdx(s: seq<Row>, col: string, order: seq<Cell>, frac: real): (r: seq<nat>)
    requires 0.0 <= frac <= 1.0
    ensures forall k :: 0 <= k < |r| ==> r[k] < |s|
  {
    if order == [] then []
    else
      var g := GroupIdx(s, col, order[|order| - 1]);
      TestIdx(s, col, order[..|order| - 1], frac) + g[..TestCount(frac, |g|)]
  }

  /** The train positions: for each label in `order`, the rest of its
      group, groups concatenated in that order. */
  function TrainIdx(s: seq<Row>, col: string, order: seq<Cell>, frac: real): (r: seq<nat>)
    requires 0.0 <= frac <= 1.0
    ensures forall k :: 0 <= k < |r| ==> r[k] < |s|
  {
    if order == [] then []
    else
      var g := GroupIdx(s, col, order[|order| - 1]);
      TrainIdx(s, col, order[..|order| - 1], frac) + g[TestCount(frac, |g|)..]
  }

  /** Reference definition on rows: the first TestCount rows of each label
      group, blocks concatenated in `order`. */
  function TestBlocks(s: seq<Row>, col: string, order: seq<Cell>, frac: real): seq<Row>
    requires 0.0 <= frac <= 1.0
  {
    if order == [] then []
    else
      var grp := RowsWith(s, col, order[|order| - 1]);
      TestBlocks(s, col, order[..|order| - 1], frac) + grp[..TestCount(frac, |grp|)]
  }

  /** Reference definition on rows: the remaining rows of each label
      group, blocks concatenated in `order`. */
  function TrainBlocks(s: seq<Row>, col: string, order: seq<Cell>, frac: real): seq<Row>
    requires 0.0 <= frac <= 1.0
  {
    if order == [] then []
    else
      var grp := RowsWith(s, col, order[|order| - 1]);
      TrainBlocks(s, col, order[..|order| - 1], frac) + grp[TestCount(frac, |grp|)..]
  }

  /** The test rows of the split, as a function of the input rows, the
      label column, the fraction and the shuffle. */
  function TestRows(rows: seq<Row>, col: string, frac: real, perm: seq<nat>): seq<Row>
    requires Labelled(rows, col) && 0.0 <= frac <= 1.0 && IsPermutation(perm, |rows|)
  {
    var df := Shuffle(rows, perm);
    ShuffleLabelled(rows, perm, col);
    Select(df, TestIdx(df, col, Unique(Labels(df, col)), frac))
  }

  /** The train rows of the split, as a function of the same inputs. */
  function TrainRows(rows: seq<Row>, col: string, frac: real, perm: seq<nat>): seq<Row>
    requires Labelled(rows, col) && 0.0 <= frac <= 1.0 && IsPermutation(perm, |rows|)
  {
    var df := Shuffle(rows, perm);
    ShuffleLabelled(rows, perm, col);
    Select(df, TrainIdx(df, col, Unique(Labels(df, col)), frac))
  }

  /** Splits the rows of `t` by the label column `labelCol`: the table is
      shuffled by `perm`; each label value, in order of first appearance,
      sends the first floor(testFrac * n) of its n rows to test and the
      rest to train. */
  method StratifiedSplit(t: Table, labelCol: string, testFrac: real, perm: seq<nat>)
    returns (train: Table, test: Table)
    requires Labelled(t.rows, labelCol)
    requires 0.0 <= testFrac <= 1.0
    requires IsPermutation(perm, |t.rows|)
    ensures train.columns == t.columns && test.columns == t.columns
    ensures train.rows == TrainRows(t.rows, labelCol, testFrac, perm)
    ensures test.rows == TestRows(t.rows, labelCol, testFrac, perm)
    ensures multiset(train.rows + test.rows) == multiset(t.rows)
    ensures forall v :: |RowsWith(test.rows, labelCol, v)| == TestCount(testFrac, |RowsWith(t.rows, labelCol, v)|)
    ensures forall v :: |RowsWith(train.rows, labelCol, v)| == |RowsWith(t.rows, labelCol, v)| - TestCount(testFrac, |RowsWith(t.rows, labelCol, v)|)
  {
    var df := Shuffle(t.rows, perm);
    ShuffleLabelled(t.rows, perm, labelCol);
    var labels := Unique(Labels(df, labelCol));
    var trainIdx: seq<nat> := [];
    var testIdx: seq<nat> := [];
    for k := 0 to |labels|
      invariant trainIdx == TrainIdx(df, labelCol, labels[..k], testFrac)
      invariant testIdx == TestIdx(df, labelCol, labels[..k], testFrac)
    {
      assert labels[..k + 1][..k] == labels[..k];
      var subset := GroupIdx(df, labelCol, labels[k]);
      var nTest := TestCount(testFrac, |subset|);
      testIdx := testIdx + subset[..nTest];
      trainIdx := trainIdx + subset[nTest..];
    }
    assert labels[..|labels|] == labels;
    train := Table(t.columns, Select(df, trainIdx));
    test := Table(t.columns, Select(df, testIdx));
    SplitPartition(t.rows, labelCol, testFrac, perm);
    forall v
      ensures |RowsWith(test.rows, labelCol, v)| == TestCount(testFrac, |RowsWith(t.rows, labelCol, v)|)
      ensures |RowsWith(train.rows, labelCol, v)| == |RowsWith(t.rows, labelCol, v)| - TestCount(testFrac, |RowsWith(t.rows, labelCol, v)|)
    {
      SplitCounts(t.rows, labelCol, testFrac, perm, v);
    }
  }

  /** The test index list selects the same rows as the block reference
      definition: per-group blocks concatenated in the visiting order. */
  lemma {:induction false} TestBlocksMatch(s: seq<Row>, col: string, order: seq<Cell>, frac: real)
    requires 0.0 <= frac <= 1.0
    ensures Select(s, TestIdx(s, col, order, frac)) == TestBlocks(s, col, order, frac)
  {
    if order != [] {
      var init, l := order[..|order| - 1], order[|order| - 1];
      var g := GroupIdx(s, col, l);
      var k := TestCount(frac, |g|);
      TestBlocksMatch(s, col, init, frac);
      GroupSelect(s, col, l);
      SelectSlices(s, g, k);
      SelectAppend(s, TestIdx(s, col, init, frac), g[..k]);
    }
  }

  /** The train index list selects the same rows as the block reference
      definition. */
  lemma {:induction false} TrainBlocksMatch(s: seq<Row>, col: string, order: seq<Cell>, frac: real)
    requires 0.0 <= frac <= 1.0
    ensures Select(s, TrainIdx(s, col, order, frac)) == TrainBlocks(s, col, order, frac)
  {
    if order != [] {
      var init, l := order[..|order| - 1], order[|order| - 1];
      var g := GroupIdx(s, col, l);
      var k := TestCount(frac, |g|);
      TrainBlocksMatch(s, col, init, frac);
      GroupSelect(s, col, l);
      SelectSlices(s, g, k);
      SelectAppend(s, TrainIdx(s, col, init, frac), g[k..]);
    }
  }

  /** One more label `l` in `order` adds, among the rows labelled `v`,
      the block of `l` when `l` is `v` and nothing otherwise. */
  lemma BlockStep(s: seq<Row>, col: string, order: seq<Cell>, frac: real, v: Cell)
    requires 0.0 <= frac <= 1.0 && order != []
    ensures var init, l := order[..|order| - 1], order[|order| - 1];
      var grp := RowsWith(s, col, l);
      var k := TestCount(frac, |grp|);
      RowsWith(TestBlocks(s, col, order, frac), col, v) == RowsWith(TestBlocks(s, col, init, frac), col, v) + (if l == v then grp[..k] else []) &&
      RowsWith(TrainBlocks(s, col, order, frac), col, v) == RowsWith(TrainBlocks(s, col, init, frac), col, v) + (if l == v then grp[k..] else [])
  {
    var init, l := order[..|order| - 1], order[|order| - 1];
    var grp := RowsWith(s, col, l);
    var k := TestCount(frac, |grp|);
    assert forall j :: 0 <= j < k ==> grp[..k][j] == grp[j];
    assert forall j :: 0 <= j < |grp| - k ==> grp[k..][j] == grp[k + j];
    RowsWithUniform(grp[..k], col, l, v);
    RowsWithUniform(grp[k..], col, l, v);
    RowsWithAppend(TestBlocks(s, col, init, frac), grp[..k], col, v);
    RowsWithAppend(TrainBlocks(s, col, init, frac), grp[k..], col, v);
  }

  /** Within each label group the test rows are the first TestCount rows
      of the group, in table order, and the train rows are the rest;
      labels outside `order` contribute nothing. */
  lemma {:induction false} BlocksPerLabel(s: seq<Row>, col: string, order: seq<Cell>, frac: real, v: Cell)
    requires 0.0 <= frac <= 1.0 && NoDuplicates(order)
    ensures var grp := RowsWith(s, col, v);
      RowsWith(TestBlocks(s, col, order, frac), col, v) == (if v in order then grp[..TestCount(frac, |grp|)] else []) &&
      RowsWith(TrainBlocks(s, col, order, frac), col, v) == (if v in order then grp[TestCount(frac, |grp|)..] else [])
  {
    if order != [] {
      var init, l := order[..|order| - 1], order[|order| - 1];
      assert order == init + [l];
      assert NoDuplicates(init) && l !in init;
      BlocksPerLabel(s, col, init, frac, v);
      BlockStep(s, col, order, frac, v);
      assert v in order <==> v in init || v == l;
    }
  }

  /** One more label in `order` adds its whole group to the two index
      lists together. */
  lemma IdxStep(s: seq<Row>, col: string, order: seq<Cell>, frac: real)
    requires 0.0 <= frac <= 1.0 && order != []
    ensures var init := order[..|order| - 1];
      multiset(TrainIdx(s, col, order, frac) + TestIdx(s, col, order, frac))
      == multiset(TrainIdx(s, col, init, frac) + TestIdx(s, col, init, frac)) + multiset(GroupIdx(s, col, order[|order| - 1]))
  {
    var init := order[..|order| - 1];
    var g := GroupIdx(s, col, order[|order| - 1]);
    var k := TestCount(frac, |g|);
    assert g == g[..k] + g[k..];
    assert multiset(g) == multiset(g[..k]) + multiset(g[k..]);
  }

  /** Each position lies in exactly one of the two index lists when its
      label is in `order`, and in neither otherwise. */
  lemma {:induction false} SplitIndexCount(s: seq<Row>, col: string, order: seq<Cell>, frac: real, i: nat)
    requires 0.0 <= frac <= 1.0 && NoDuplicates(order) && Labelled(s, col)
    ensures multiset(TrainIdx(s, col, order, frac) + TestIdx(s, col, order, frac))[i]
      == if i < |s| && s[i][col] in order then 1 else 0
  {
    if order != [] {
      var init, l := order[..|order| - 1], order[|order| - 1];
      assert order == init + [l];
      assert NoDuplicates(init) && l !in init;
      SplitIndexCount(s, col, init, frac, i);
      GroupIdxCount(s, col, l, i);
      IdxStep(s, col, order, frac);
      if i < |s| {
        assert s[i][col] in order <==> s[i][col] in init || s[i][col] == l;
      }
    }
  }

  /** Over a labelled table, taking every label in order of first
      appearance, the train and test positions together list every
      position exactly once. */
  lemma IndexPartition(df: seq<Row>, col: string, frac: real)
    requires Labelled(df, col) && 0.0 <= frac <= 1.0
    ensures var order := Unique(Labels(df, col));
      IsPermutation(TrainIdx(df, col, order, frac) + TestIdx(df, col, order, frac), |df|)
  {
    var order := Unique(Labels(df, col));
    var both: seq<nat> := TrainIdx(df, col, order, frac) + TestIdx(df, col, order, frac);
    forall i: nat
      ensures multiset(both)[i] == multiset(Range(|df|))[i]
    {
      SplitIndexCount(df, col, order, frac, i);
      RangeCount(|df|, i);
      if i < |df| {
        assert Labels(df, col)[i] == df[i][col];
      }
    }
    assert multiset(both) == multiset(Range(|df|));
  }

  /** The split is a partition: over the shuffled table the train and test
      positions are disjoint and cover every position exactly once, so
      train and test together hold every input row exactly as often as the
      input does. */
  lemma SplitPartition(rows: seq<Row>, col: string, frac: real, perm: seq<nat>)
    requires Labelled(rows, col) && 0.0 <= frac <= 1.0 && IsPermutation(perm, |rows|)
    ensures Labelled(Shuffle(rows, perm), col)
    ensures var df := Shuffle(rows, perm);
      var order := Unique(Labels(df, col));
      var trainIdx, testIdx := TrainIdx(df, col, order, frac), TestIdx(df, col, order, frac);
      IsPermutation(trainIdx + testIdx, |df|) &&
      (forall i :: i in trainIdx ==> i !in testIdx) &&
      (forall i :: 0 <= i < |df| ==> i in trainIdx || i in testIdx)
    ensures multiset(TrainRows(rows, col, frac, perm) + TestRows(rows, col, frac, perm)) == multiset(rows)
  {
    var df := Shuffle(rows, perm);
    ShuffleLabelled(rows, perm, col);
    var order := Unique(Labels(df, col));
    var trainIdx, testIdx := TrainIdx(df, col, order, frac), TestIdx(df, col, order, frac);
    IndexPartition(df, col, frac);
    PermutationHalves(trainIdx, testIdx, |df|);
    SelectAppend(df, trainIdx, testIdx);
    SelectPermutation(df, trainIdx + testIdx);
  }

  /** A label value that no row carries has an empty group. */
  lemma AbsentLabel(s: seq<Row>, col: string, v: Cell)
    requires Labelled(s, col) && v !in Labels(s, col)
    ensures RowsWith(s, col, v) == []
  {
    forall i | 0 <= i < |s|
      ensures !HasLabel(s[i], col, v)
    {
      assert Labels(s, col)[i] == s[i][col];
    }
    RowsWithNone(s, col, v);
  }

  /** Per label value `v`, in the split: the test rows labelled `v` are the
      first floor(frac * c) rows labelled `v` in shuffled order and the
      train rows labelled `v` are the remaining ones, where c is the number
      of input rows labelled `v`. */
  lemma SplitPerLabel(rows: seq<Row>, col: string, frac: real, perm: seq<nat>, v: Cell)
    requires Labelled(rows, col) && 0.0 <= frac <= 1.0 && IsPermutation(perm, |rows|)
    ensures var grp := RowsWith(Shuffle(rows, perm), col, v);
      |grp| == |RowsWith(rows, col, v)| &&
      RowsWith(TestRows(rows, col, frac, perm), col, v) == grp[..TestCount(frac, |grp|)] &&
      RowsWith(TrainRows(rows, col, frac, perm), col, v) == grp[TestCount(frac, |grp|)..]
  {
    var df := Shuffle(rows, perm);
    ShuffleLabelled(rows, perm, col);
    var order := Unique(Labels(df, col));
    RowsWithPermutation(df, rows, col, v);
    TestBlocksMatch(df, col, order, frac);
    TrainBlocksMatch(df, col, order, frac);
    BlocksPerLabel(df, col, order, frac, v);
    if v !in order {
      AbsentLabel(df, col, v);
    }
  }

  /** Per label value `v` with c input rows: test holds floor(frac * c) of
      them and train holds the other c - floor(frac * c). */
  lemma SplitCounts(rows: seq<Row>, col: string, frac: real, perm: seq<nat>, v: Cell)
    requires Labelled(rows, col) && 0.0 <= frac <= 1.0 && IsPermutation(perm, |rows|)
    ensures var c := |RowsWith(rows, col, v)|;
      |RowsWith(TestRows(rows, col, frac, perm), col, v)| == TestCount(frac, c) &&
      |RowsWith(TrainRows(rows, col, frac, perm), col, v)| == c - TestCount(frac, c)
  {
    SplitPerLabel(rows, col, frac, perm, v);
  }

  /** The test rows and the train rows are each the per-label blocks laid
      end to end, labels taken in order of first appearance in the shuffled
      table. */
  lemma SplitBlockOrder(rows: seq<Row>, col: string, frac: real, perm: seq<nat>)
    requires Labelled(rows, col) && 0.0 <= frac <= 1.0 && IsPermutation(perm, |rows|)
    ensures Labelled(Shuffle(rows, perm), col)
    ensures var df := Shuffle(rows, perm);
      var order := Unique(Labels(df, col));
      TestRows(rows, col, frac, perm) == TestBlocks(df, col, order, frac) &&
      TrainRows(rows, col, frac, perm) == TrainBlocks(df, col, order, frac)
  {
    var df := Shuffle(rows, perm);
    ShuffleLabelled(rows, perm, col);
    TestBlocksMatch(df, col, Unique(Labels(df, col)), frac);
    TrainBlocksMatch(df, col, Unique(Labels(df, col)), frac);
  }

  /** Ten rows, six labelled 0 and four labelled 1, split with fraction
      0.2: test gets floor(1.2) = 1 row labelled 0 and floor(0.8) = 0 rows
      labelled 1, and train gets the other 9 rows. */
  lemma TenRowScenario(rows: seq<Row>, perm: seq<nat>)
    requires |rows| == 10 && Labelled(rows, "good") && IsPermutation(perm, 10)
    requires |RowsWith(rows, "good", Int(0))| == 6 && |RowsWith(rows, "good", Int(1))| == 4
    ensures |RowsWith(TestRows(rows, "good", 0.2, perm), "good", Int(0))| == 1
    ensures |RowsWith(TestRows(rows, "good", 0.2, perm), "good", Int(1))| == 0
    ensures |TrainRows(rows, "good", 0.2, perm)| == 9
  {
    var test, train := TestRows(rows, "good", 0.2, perm), TrainRows(rows, "good", 0.2, perm);
    assert TestCount(0.2, 6) == 1;
    assert TestCount(0.2, 4) == 0;
    SplitCounts(rows, "good", 0.2, perm, Int(0));
    SplitCounts(rows, "good", 0.2, perm, Int(1));
    SplitPartition(rows, "good", 0.2, perm);
    assert |train + test| == |multiset(train + test)| == |multiset(rows)| == 10;
    RowsWithTwo(test, "good", Int(0), Int(1));
    RowsWithTwo(train, "good", Int(0), Int(1));
  }
}
