/** Option, Result and the sums over table rows that every ledger below is stated with. */
module Prelude {

  datatype Option<+T> = None | Some(value: T)

  datatype Result<+T, +E> = Success(value: T) | Failure(error: E)

  function Max(a: int, b: int): int {
    if a < b then b else a
  }

  function Min(a: int, b: int): int {
    if a < b then a else b
  }

  /** The sum of a column of a table: `f` gives the weight of a row. Rows are appended at the end. */
  function SumBy<T>(rows: seq<T>, f: T -> int): int {
    if rows == [] then 0 else SumBy(rows[..|rows| - 1], f) + f(rows[|rows| - 1])
  }

  lemma SumByAppend<T>(rows: seq<T>, row: T, f: T -> int)
    ensures SumBy(rows + [row], f) == SumBy(rows, f) + f(row)
  {
    assert (rows + [row])[..|rows|] == rows;
  }

  lemma {:induction false} SumByConcat<T>(rows: seq<T>, more: seq<T>, f: T -> int)
    ensures SumBy(rows + more, f) == SumBy(rows, f) + SumBy(more, f)
  {
    if more == [] {
      assert rows + more == rows;
    } else {
      var n := |more| - 1;
      SumByConcat(rows, more[..n], f);
      assert (rows + more)[..|rows| + n] == rows + more[..n];
    }
  }

  lemma {:induction false} SumByUpdate<T>(rows: seq<T>, i: nat, row: T, f: T -> int)
    requires i < |rows|
    ensures SumBy(rows[i := row], f) == SumBy(rows, f) - f(rows[i]) + f(row)
  {
    var n := |rows| - 1;
    if i == n {
      assert rows[i := row][..n] == rows[..n];
    } else {
      SumByUpdate(rows[..n], i, row, f);
      assert rows[i := row][..n] == rows[..n][i := row];
    }
  }

  lemma {:induction false} SumByEqual<T>(rows: seq<T>, f: T -> int, g: T -> int)
    requires forall i | 0 <= i < |rows| :: f(rows[i]) == g(rows[i])
    ensures SumBy(rows, f) == SumBy(rows, g)
  {
    if rows != [] {
      var init := rows[..|rows| - 1];
      assert forall i | 0 <= i < |init| :: init[i] == rows[i];
      SumByEqual(init, f, g);
    }
  }

  /** If every row splits its weight between two columns, so does the total. */
  lemma {:induction false} SumBySplit<T>(rows: seq<T>, f: T -> int, g: T -> int, h: T -> int)
    requires forall i | 0 <= i < |rows| :: f(rows[i]) == g(rows[i]) + h(rows[i])
    ensures SumBy(rows, f) == SumBy(rows, g) + SumBy(rows, h)
  {
    if rows != [] {
      var init := rows[..|rows| - 1];
      assert forall i | 0 <= i < |init| :: init[i] == rows[i];
      SumBySplit(init, f, g, h);
    }
  }

  lemma {:induction false} SumByAtMost<T>(rows: seq<T>, f: T -> int, g: T -> int)
    requires forall i | 0 <= i < |rows| :: f(rows[i]) <= g(rows[i])
    ensures SumBy(rows, f) <= SumBy(rows, g)
  {
    if rows != [] {
      var init := rows[..|rows| - 1];
      assert forall i | 0 <= i < |init| :: init[i] == rows[i];
      SumByAtMost(init, f, g);
    }
  }

  lemma {:induction false} SumByZero<T>(rows: seq<T>, f: T -> int)
    requires forall i | 0 <= i < |rows| :: f(rows[i]) == 0
    ensures SumBy(rows, f) == 0
  {
    if rows != [] {
      var init := rows[..|rows| - 1];
      assert forall i | 0 <= i < |init| :: init[i] == rows[i];
      SumByZero(init, f);
    }
  }

  /** A total of nonnegative weights is zero exactly when every weight is. */
  lemma {:induction false} SumByNonnegative<T>(rows: seq<T>, f: T -> int)
    requires forall i | 0 <= i < |rows| :: 0 <= f(rows[i])
    ensures 0 <= SumBy(rows, f)
    ensures SumBy(rows, f) == 0 <==> forall i | 0 <= i < |rows| :: f(rows[i]) == 0
  {
    if rows != [] {
      var init := rows[..|rows| - 1];
      assert forall i | 0 <= i < |init| :: init[i] == rows[i];
      SumByNonnegative(init, f);
    }
  }

  // ----- rows with distinct keys -----

  ghost predicate DistinctOn<T, K>(rows: seq<T>, key: T -> K) {
    forall i, j | 0 <= i < j < |rows| :: key(rows[i]) != key(rows[j])
  }

  lemma {:induction false} DistinctOccursOnce<T, K>(rows: seq<T>, key: T -> K, x: T)
    requires DistinctOn(rows, key)
    ensures multiset(rows)[x] <= 1
  {
    if rows != [] {
      var init, last := rows[..|rows| - 1], rows[|rows| - 1];
      assert rows == init + [last];
      DistinctOccursOnce(init, key, x);
      assert x == last ==> x !in init;
    }
  }

  lemma PermutationIsDistinct<T, K>(rows: seq<T>, rows': seq<T>, key: T -> K)
    requires DistinctOn(rows, key) && multiset(rows) == multiset(rows')
    ensures DistinctOn(rows', key)
  {
    forall i, j | 0 <= i < j < |rows'|
      ensures key(rows'[i]) != key(rows'[j])
    {
      assert rows' == rows'[..j] + rows'[j..];
      assert rows'[i] == rows'[..j][i] && rows'[j] == rows'[j..][0];
      assert rows'[i] in multiset(rows'[..j]) && rows'[j] in multiset(rows'[j..]);
      DistinctOccursOnce(rows, key, rows'[i]);
      assert rows'[i] != rows'[j];
      assert rows'[i] in multiset(rows) && rows'[j] in multiset(rows);
      assert rows'[i] in rows && rows'[j] in rows;
    }
  }
}
