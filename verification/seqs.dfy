/** The plain sequence meaning of the pandas operations the dashboard uses:
    boolean-mask row selection, `unique()`, `head(n)` and `max()`. */
module Seqs {

  datatype Option<+T> = None | Some(value: T)

  /** `r` can be obtained from `s` by deleting elements, keeping the order of the rest. */
  predicate IsSubsequence<T(==)>(r: seq<T>, s: seq<T>)
    decreases |s|
  {
    r == [] ||
    (s != [] &&
     ((r[0] == s[0] && IsSubsequence(r[1..], s[1..])) || IsSubsequence(r, s[1..])))
  }

  predicate NoDuplicates<T(==)>(s: seq<T>) {
    forall i, j :: 0 <= i < j < |s| ==> s[i] != s[j]
  }

  // ---------------------------------------------------------------------------
  // Boolean-mask selection `rows[mask]`
  // ---------------------------------------------------------------------------

  /** `rows[mask]` where `mask` is `keep` applied to every row: the rows for which
      `keep` holds, in their original order. */
  function Select<T(==,!new)>(rows: seq<T>, keep: T -> bool): (r: seq<T>)
    ensures |r| <= |rows|
    ensures forall x :: x in r <==> x in rows && keep(x)
  {
    if rows == [] then []
    else if keep(rows[0]) then [rows[0]] + Select(rows[1..], keep)
    else Select(rows[1..], keep)
  }

  /** The selection keeps the original order of the rows. */
  lemma {:induction false} SelectIsSubsequence<T(!new)>(rows: seq<T>, keep: T -> bool)
    ensures IsSubsequence(Select(rows, keep), rows)
  {
    if rows != [] {
      var r := Select(rows, keep);
      SelectIsSubsequence(rows[1..], keep);
      if keep(rows[0]) {
        assert r[0] == rows[0] && r[1..] == Select(rows[1..], keep);
      } else if r != [] {
        assert r == Select(rows[1..], keep);
      }
    }
  }

  /** Every row for which `keep` holds is selected as often as it occurs in `rows`;
      every other row is dropped. */
  lemma {:induction false} SelectCounts<T(!new)>(rows: seq<T>, keep: T -> bool, x: T)
    ensures multiset(Select(rows, keep))[x] == if keep(x) then multiset(rows)[x] else 0
  {
    if rows != [] {
      SelectCounts(rows[1..], keep, x);
      assert rows == [rows[0]] + rows[1..];
      assert multiset(rows) == multiset([rows[0]]) + multiset(rows[1..]);
      if keep(rows[0]) {
        assert multiset(Select(rows, keep)) == multiset([rows[0]]) + multiset(Select(rows[1..], keep));
      }
    }
  }

  /** Two successive selections are one selection by the conjunction of the masks. */
  lemma {:induction false} SelectSelect<T(!new)>(rows: seq<T>, p: T -> bool, q: T -> bool, both: T -> bool)
    requires forall x :: both(x) == (p(x) && q(x))
    ensures Select(Select(rows, p), q) == Select(rows, both)
  {
    if rows != [] {
      SelectSelect(rows[1..], p, q, both);
      if p(rows[0]) {
        assert Select(rows, p) == [rows[0]] + Select(rows[1..], p);
        assert Select(rows, p)[1..] == Select(rows[1..], p);
      }
    }
  }

  /** The order in which two masks are applied does not matter. */
  lemma {:induction false} SelectCommutes<T(!new)>(rows: seq<T>, p: T -> bool, q: T -> bool)
    ensures Select(Select(rows, p), q) == Select(Select(rows, q), p)
  {
    var both := x => p(x) && q(x);
    SelectSelect(rows, p, q, both);
    SelectSelect(rows, q, p, both);
  }

  /** A mask that holds of every row selects the whole sequence. */
  lemma {:induction false} SelectAll<T(!new)>(rows: seq<T>, keep: T -> bool)
    requires forall x :: x in rows ==> keep(x)
    ensures Select(rows, keep) == rows
  {
    if rows != [] {
      SelectAll(rows[1..], keep);
    }
  }

  // ---------------------------------------------------------------------------
  // `unique()`
  // ---------------------------------------------------------------------------

  /** The position of the first occurrence of `x` in `xs`. */
  function FirstIndex<T(==)>(xs: seq<T>, x: T): (i: nat)
    requires x in xs
    ensures i < |xs| && xs[i] == x && x !in xs[..i]
  {
    if xs[0] == x then 0
    else
      var j := FirstIndex(xs[1..], x);
      assert xs[..j + 1] == [xs[0]] + xs[1..][..j];
      j + 1
  }

  lemma FirstIndexOfPrefix<T>(xs: seq<T>, ys: seq<T>, x: T)
    requires x in xs
    ensures FirstIndex(xs + ys, x) == FirstIndex(xs, x)
  {
    if xs[0] != x {
      assert (xs + ys)[1..] == xs[1..] + ys;
      FirstIndexOfPrefix(xs[1..], ys, x);
    }
  }

  lemma FirstIndexOfNew<T>(xs: seq<T>, x: T)
    requires x !in xs
    ensures FirstIndex(xs + [x], x) == |xs|
  {
  }

  /** `pd.Series(xs).unique()`: the distinct values in order of first appearance. */
  function Unique<T(==,!new)>(xs: seq<T>): (r: seq<T>)
    ensures forall x :: x in r <==> x in xs
    ensures NoDuplicates(r)
  {
    if xs == [] then []
    else
      var init, last := xs[..|xs| - 1], xs[|xs| - 1];
      assert xs == init + [last];
      var u := Unique(init);
      if last in u then u else u + [last]
  }

  /** Each distinct value appears in `Unique(xs)` in the order of its first
      occurrence in `xs`. */
  lemma {:induction false} UniqueFirstSeenOrder<T(!new)>(xs: seq<T>, i: nat, j: nat)
    requires i < j < |Unique(xs)|
    ensures Unique(xs)[i] in xs && Unique(xs)[j] in xs
    ensures FirstIndex(xs, Unique(xs)[i]) < FirstIndex(xs, Unique(xs)[j])
  {
    var r := Unique(xs);
    assert r[i] in r && r[j] in r;
    var init, last := xs[..|xs| - 1], xs[|xs| - 1];
    assert xs == init + [last];
    var u := Unique(init);
    if j < |u| {
      assert r[i] == u[i] && r[j] == u[j];
      UniqueFirstSeenOrder(init, i, j);
      assert u[i] in u && u[j] in u;
      FirstIndexOfPrefix(init, [last], u[i]);
      FirstIndexOfPrefix(init, [last], u[j]);
    } else {
      assert last !in u && r[j] == last && r[i] == u[i];
      assert u[i] in u;
      FirstIndexOfPrefix(init, [last], u[i]);
      FirstIndexOfNew(init, last);
    }
  }

  // ---------------------------------------------------------------------------
  // `head(n)` and `max()`
  // ---------------------------------------------------------------------------

  /** `head(n)` for `n >= 0`: the first `n` rows, or all of them when there are fewer. */
  function Head<T>(rows: seq<T>, n: nat): (r: seq<T>)
    ensures |r| == if n <= |rows| then n else |rows|
    ensures r <= rows
  {
    if n <= |rows| then rows[..n] else rows
  }

  /** `max()` of a numeric column; pandas gives NaN for an empty column, here `None`. */
  function Max(xs: seq<int>): (r: Option<int>)
    ensures r.Some? <==> xs != []
    ensures r.Some? ==> r.value in xs && forall x :: x in xs ==> x <= r.value
  {
    if xs == [] then None
    else
      assert xs == [xs[0]] + xs[1..];
      match Max(xs[1..])
      case None => Some(xs[0])
      case Some(m) => Some(if m < xs[0] then xs[0] else m)
  }
}
