/** The tabular data the preprocessing steps work on: cells, rows keyed by
    column name, tables with an ordered column list, row selection by an
    index list (the `loc` lookup) and permutations of row positions. */
module Tables {

  /** A single cell. The wine tables hold integer columns (quality, the
      derived label), float columns (the chemical measurements) and one
      string column (color). */
  datatype Cell = Int(i: int) | Real(r: real) | Text(s: string)

  predicate IsNumeric(c: Cell) { !c.Text? }

  /** The numeric value of an integer or float cell. */
  function NumericValue(c: Cell): real
    requires IsNumeric(c)
  {
    match c
    case Int(i) => i as real
    case Real(r) => r
  }

  /** A row maps each column name to its cell. */
  type Row = map<string, Cell>

  /** A table: its column names in order and its rows in order. */
  datatype Table = Table(columns: seq<string>, rows: seq<Row>)

  /** Every row has exactly the table's columns. */
  predicate WellFormed(t: Table)
  {
    forall i :: 0 <= i < |t.rows| ==> t.rows[i].Keys == set c | c in t.columns
  }

  /** No element occurs twice in `s`. */
  predicate NoDuplicates<T(==)>(s: seq<T>)
  {
    forall i, j :: 0 <= i < j < |s| ==> s[i] != s[j]
  }

  /** The positions 0, 1, ..., n-1. */
  function Range(n: nat): (r: seq<nat>)
    ensures |r| == n && forall i :: 0 <= i < n ==> r[i] == i
  {
    seq(n, i requires 0 <= i => i)
  }

  /** `p` lists every position below `n` exactly once. */
  predicate IsPermutation(p: seq<nat>, n: nat)
  {
    multiset(p) == multiset(Range(n))
  }

  /** When `a + b` is a permutation of 0..n-1, no position is in both
      halves and every position is in one of them. */
  lemma PermutationHalves(a: seq<nat>, b: seq<nat>, n: nat)
    requires IsPermutation(a + b, n)
    ensures forall i :: i in a ==> i !in b
    ensures forall i :: 0 <= i < n ==> i in a || i in b
  {
    forall i | i in a
      ensures i !in b
    {
      RangeCount(n, i);
      assert multiset(a + b)[i] == multiset(a)[i] + multiset(b)[i];
    }
    forall i | 0 <= i < n
      ensures i in a || i in b
    {
      RangeCount(n, i);
      assert i in multiset(a + b);
    }
  }

  /** Counting `i` after `n` is appended, when `b`, to a list of
      positions. */
  lemma CountSnoc(front: seq<nat>, n: nat, b: bool, i: nat)
    ensures multiset(front + if b then [n] else [])[i] == multiset(front)[i] + if b && i == n then 1 else 0
  {
    if b {
      assert multiset(front + [n]) == multiset(front) + multiset{n};
    } else {
      assert front + [] == front;
    }
  }

  /** The rows at positions `idx`, in that order (a `loc` lookup followed by
      renumbering). */
  function Select<T>(s: seq<T>, idx: seq<nat>): (r: seq<T>)
    requires forall k :: 0 <= k < |idx| ==> idx[k] < |s|
    ensures |r| == |idx|
  {
    seq(|idx|, k requires 0 <= k < |idx| => s[idx[k]])
  }

  /** Row `r` has column `col` and its value there is `v`. */
  predicate HasLabel(r: Row, col: string, v: Cell)
  {
    col in r && r[col] == v
  }

  /** The rows of `s` whose `col` value is `v`, in their order in `s`
      (the boolean-mask selection `df[df[col] == v]`). */
  function RowsWith(s: seq<Row>, col: string, v: Cell): (r: seq<Row>)
    ensures |r| <= |s|
    ensures forall k :: 0 <= k < |r| ==> HasLabel(r[k], col, v)
  {
    if s == [] then []
    else
      var last := s[|s| - 1];
      RowsWith(s[..|s| - 1], col, v) + (if HasLabel(last, col, v) then [last] else [])
  }

  /** Number of occurrences of `i` among the positions 0..n-1. */
  lemma {:induction false} RangeCount(n: nat, i: nat)
    ensures multiset(Range(n))[i] == if i < n then 1 else 0
  {
    if n > 0 {
      assert Range(n) == Range(n - 1) + [n - 1];
      RangeCount(n - 1, i);
    }
  }

  /** A permutation of 0..n-1 has length n and only entries below n. */
  lemma PermutationBounded(p: seq<nat>, n: nat)
    requires IsPermutation(p, n)
    ensures |p| == n
    ensures forall k :: 0 <= k < |p| ==> p[k] < n
  {
    assert |multiset(p)| == |multiset(Range(n))|;
    forall k | 0 <= k < |p|
      ensures p[k] < n
    {
      assert p[k] in multiset(p);
      RangeCount(n, p[k]);
    }
  }

  /** Selecting through a concatenation of index lists concatenates the
      selections. */
  lemma SelectAppend<T>(s: seq<T>, a: seq<nat>, b: seq<nat>)
    requires forall k :: 0 <= k < |a| ==> a[k] < |s|
    requires forall k :: 0 <= k < |b| ==> b[k] < |s|
    ensures Select(s, a + b) == Select(s, a) + Select(s, b)
  {
  }

  /** Selecting through the first `k` entries of an index list gives the
      first `k` rows of the selection, and the rest gives the rest. */
  lemma SelectSlices<T>(s: seq<T>, g: seq<nat>, k: nat)
    requires forall j :: 0 <= j < |g| ==> g[j] < |s|
    requires k <= |g|
    ensures Select(s, g[..k]) == Select(s, g)[..k]
    ensures Select(s, g[k..]) == Select(s, g)[k..]
  {
  }

  /** Selecting only positions below `m` sees nothing beyond `s[..m]`. */
  lemma SelectPrefix<T>(s: seq<T>, m: nat, idx: seq<nat>)
    requires m <= |s|
    requires forall k :: 0 <= k < |idx| ==> idx[k] < m
    ensures Select(s[..m], idx) == Select(s, idx)
  {
  }

  /** The largest position n occurs in a permutation of 0..n. */
  lemma LargestOccurs(idx: seq<nat>, n: nat) returns (p: nat)
    requires IsPermutation(idx, n + 1)
    ensures p < |idx| && idx[p] == n
  {
    RangeCount(n + 1, n);
    assert n in multiset(idx);
    p :| 0 <= p < |idx| && idx[p] == n;
  }

  /** Taking the largest position out of a permutation of 0..n leaves a
      permutation of 0..n-1. */
  lemma RemoveLargest(idx: seq<nat>, n: nat, p: nat)
    requires IsPermutation(idx, n + 1)
    requires p < |idx| && idx[p] == n
    ensures IsPermutation(idx[..p] + idx[p + 1..], n)
  {
    var front, back := idx[..p], idx[p + 1..];
    var rest := front + back;
    assert idx == front + [n] + back;
    assert multiset(idx) == multiset(rest) + multiset{n};
    assert Range(n + 1) == Range(n) + [n];
    assert multiset(Range(n + 1)) == multiset(Range(n)) + multiset{n};
    forall x: nat
      ensures multiset(rest)[x] == multiset(Range(n))[x]
    {
      assert multiset(idx)[x] == multiset(rest)[x] + multiset{n}[x];
      assert multiset(Range(n + 1))[x] == multiset(Range(n))[x] + multiset{n}[x];
    }
  }

  /** Selecting through `front + [n] + back`, where only the middle entry
      reaches position `n`, gives row `n` plus what the other entries
      select from `s[..n]`. */
  lemma SelectSplitAt<T>(s: seq<T>, front: seq<nat>, n: nat, back: seq<nat>)
    requires n < |s|
    requires forall k :: 0 <= k < |front + back| ==> (front + back)[k] < n
    ensures forall k :: 0 <= k < |front + [n] + back| ==> (front + [n] + back)[k] < |s|
    ensures multiset(Select(s, front + [n] + back)) == multiset(Select(s[..n], front + back)) + multiset{s[n]}
  {
    assert forall k :: 0 <= k < |front| ==> front[k] == (front + back)[k];
    assert forall k :: 0 <= k < |back| ==> back[k] == (front + back)[|front| + k];
    SelectPrefix(s, n, front + back);
    SelectAppend(s, front, back);
    SelectAppend(s, front, [n]);
    SelectAppend(s, front + [n], back);
    assert Select(s, [n]) == [s[n]];
  }

  /** Selecting the rows of `s` through a permutation of its positions
      keeps every row, each as often as before. */
  lemma {:induction false} SelectPermutation<T>(s: seq<T>, idx: seq<nat>)
    requires IsPermutation(idx, |s|)
    ensures forall k :: 0 <= k < |idx| ==> idx[k] < |s|
    ensures multiset(Select(s, idx)) == multiset(s)
  {
    PermutationBounded(idx, |s|);
    if |s| > 0 {
      var n := |s| - 1;
      var p := LargestOccurs(idx, n);
      var front, back := idx[..p], idx[p + 1..];
      assert idx == front + [n] + back;
      RemoveLargest(idx, n, p);
      PermutationBounded(front + back, n);
      SelectPermutation(s[..n], front + back);
      SelectSplitAt(s, front, n, back);
      assert s == s[..n] + [s[n]];
    }
  }

  /** Filtering distributes over concatenation. */
  lemma {:induction false} RowsWithAppend(a: seq<Row>, b: seq<Row>, col: string, v: Cell)
    ensures RowsWith(a + b, col, v) == RowsWith(a, col, v) + RowsWith(b, col, v)
  {
    if b != [] {
      var n := |b| - 1;
      assert (a + b)[..|a + b| - 1] == a + b[..n];
      RowsWithAppend(a, b[..n], col, v);
    } else {
      assert a + b == a;
    }
  }

  /** Filtering a block whose rows all carry label `l`: everything is kept
      when `v` is `l`, nothing otherwise. */
  lemma {:induction false} RowsWithUniform(x: seq<Row>, col: string, l: Cell, v: Cell)
    requires forall k :: 0 <= k < |x| ==> HasLabel(x[k], col, l)
    ensures RowsWith(x, col, v) == if l == v then x else []
  {
    if x != [] {
      RowsWithUniform(x[..|x| - 1], col, l, v);
      assert x == x[..|x| - 1] + [x[|x| - 1]];
    }
  }

  /** Filtering rows none of which carries `v` keeps nothing. */
  lemma {:induction false} RowsWithNone(x: seq<Row>, col: string, v: Cell)
    requires forall k :: 0 <= k < |x| ==> !HasLabel(x[k], col, v)
    ensures RowsWith(x, col, v) == []
  {
    if x != [] {
      RowsWithNone(x[..|x| - 1], col, v);
    }
  }

  /** Rows labelled `a` and rows labelled `b`, for different `a` and `b`,
      are different rows, so together there are at most as many as rows. */
  lemma {:induction false} RowsWithTwo(x: seq<Row>, col: string, a: Cell, b: Cell)
    requires a != b
    ensures |RowsWith(x, col, a)| + |RowsWith(x, col, b)| <= |x|
  {
    if x != [] {
      RowsWithTwo(x[..|x| - 1], col, a, b);
    }
  }

  /** Taking row `j` out of `b` removes its contribution to the count. */
  lemma RowsWithRemove(b: seq<Row>, j: nat, col: string, v: Cell)
    requires j < |b|
    ensures |RowsWith(b, col, v)| == |RowsWith(b[..j] + b[j + 1..], col, v)| + |RowsWith([b[j]], col, v)|
  {
    assert b == b[..j] + [b[j]] + b[j + 1..];
    RowsWithAppend(b[..j], b[j + 1..], col, v);
    RowsWithAppend(b[..j] + [b[j]], b[j + 1..], col, v);
    RowsWithAppend(b[..j], [b[j]], col, v);
  }

  /** Rearranging rows does not change how many carry a given label. */
  lemma {:induction false} RowsWithPermutation(a: seq<Row>, b: seq<Row>, col: string, v: Cell)
    requires multiset(a) == multiset(b)
    ensures |RowsWith(a, col, v)| == |RowsWith(b, col, v)|
  {
    if a == [] {
      assert |b| == |multiset(b)| == 0;
    } else {
      var n := |a| - 1;
      var x := a[n];
      assert a == a[..n] + [x];
      assert x in multiset(b);
      var j :| 0 <= j < |b| && b[j] == x;
      var b' := b[..j] + b[j + 1..];
      assert b == b[..j] + [x] + b[j + 1..];
      assert multiset(a[..n]) == multiset(a) - multiset{x};
      assert multiset(b') == multiset(b) - multiset{x};
      RowsWithPermutation(a[..n], b', col, v);
      RowsWithRemove(b, j, col, v);
      RowsWithAppend(a[..n], [x], col, v);
    }
  }
}
