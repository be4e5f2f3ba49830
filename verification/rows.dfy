/**
 The row-shape gate: a CSV row becomes a note only when it has exactly as
 many fields as the file's template expects. Rows are whatever the CSV
 reader produced, a sequence of field strings each.
 */
module Rows {

  type Row = seq<string>

  /** `sub` is `s` with some elements dropped and the rest kept in order. */
  predicate IsSubsequence<T(==)>(sub: seq<T>, s: seq<T>)
    decreases |s|
  {
    if |sub| == 0 then true
    else if |s| == 0 then false
    else (sub[0] == s[0] && IsSubsequence(sub[1..], s[1..])) || IsSubsequence(sub, s[1..])
  }

  /** The rows with exactly `n` fields, in their original order. */
  function FilterRows(rows: seq<Row>, n: nat): (kept: seq<Row>)
    ensures |kept| <= |rows|
    ensures forall k :: 0 <= k < |kept| ==> |kept[k]| == n
    ensures IsSubsequence(kept, rows)
  {
    if |rows| == 0 then []
    else if |rows[0]| == n then [rows[0]] + FilterRows(rows[1..], n)
    else FilterRows(rows[1..], n)
  }

  /** A row is kept iff it is one of the rows and has exactly `n` fields. */
  lemma {:induction false} FilterRowsMembers(rows: seq<Row>, n: nat, row: Row)
    ensures row in FilterRows(rows, n) <==> row in rows && |row| == n
    decreases |rows|
  {
    if |rows| > 0 {
      FilterRowsMembers(rows[1..], n, row);
      assert rows == [rows[0]] + rows[1..];
    }
  }

  /** Filtering two batches of rows one after the other is filtering them together. */
  lemma {:induction false} FilterRowsAppend(a: seq<Row>, b: seq<Row>, n: nat)
    ensures FilterRows(a + b, n) == FilterRows(a, n) + FilterRows(b, n)
    decreases |a|
  {
    if |a| == 0 {
      assert a + b == b;
    } else {
      assert (a + b)[0] == a[0];
      assert (a + b)[1..] == a[1..] + b;
      FilterRowsAppend(a[1..], b, n);
    }
  }

  /** Rows that all have the right shape pass the gate unchanged. */
  lemma {:induction false} FilterRowsKeepsWellShaped(rows: seq<Row>, n: nat)
    requires forall k :: 0 <= k < |rows| ==> |rows[k]| == n
    ensures FilterRows(rows, n) == rows
    decreases |rows|
  {
    if |rows| > 0 {
      FilterRowsKeepsWellShaped(rows[1..], n);
      assert rows == [rows[0]] + rows[1..];
    }
  }

  /** Filtering twice keeps the same rows as filtering once. */
  lemma FilterRowsIdempotent(rows: seq<Row>, n: nat)
    ensures FilterRows(FilterRows(rows, n), n) == FilterRows(rows, n)
  {
    FilterRowsKeepsWellShaped(FilterRows(rows, n), n);
  }

  /** Each well-shaped row is kept as often as it occurs; every other row is dropped. */
  lemma {:induction false} FilterRowsCounts(rows: seq<Row>, n: nat, row: Row)
    ensures multiset(FilterRows(rows, n))[row]
         == if |row| == n then multiset(rows)[row] else 0
    decreases |rows|
  {
    if |rows| > 0 {
      FilterRowsCounts(rows[1..], n, row);
      assert rows == [rows[0]] + rows[1..];
      assert multiset(rows) == multiset{rows[0]} + multiset(rows[1..]);
      if |rows[0]| == n {
        var kept := FilterRows(rows, n);
        assert kept == [rows[0]] + FilterRows(rows[1..], n);
        assert multiset(kept) == multiset{rows[0]} + multiset(FilterRows(rows[1..], n));
      }
    }
  }

  /** A subsequence made of well-shaped rows can be no longer than the filtered rows. */
  lemma {:induction false} WellShapedSubsequenceBound(sub: seq<Row>, rows: seq<Row>, n: nat)
    requires IsSubsequence(sub, rows)
    requires forall k :: 0 <= k < |sub| ==> |sub[k]| == n
    ensures |sub| <= |FilterRows(rows, n)|
    decreases |rows|
  {
    if |sub| > 0 {
      if sub[0] == rows[0] && IsSubsequence(sub[1..], rows[1..]) {
        WellShapedSubsequenceBound(sub[1..], rows[1..], n);
      } else {
        WellShapedSubsequenceBound(sub, rows[1..], n);
      }
    }
  }

  /**
   The filtered rows are THE longest subsequence of well-shaped rows: any
   other subsequence of well-shaped rows of that length is equal to it.
   */
  lemma {:induction false} FilterRowsIsLongest(sub: seq<Row>, rows: seq<Row>, n: nat)
    requires IsSubsequence(sub, rows)
    requires forall k :: 0 <= k < |sub| ==> |sub[k]| == n
    requires |sub| == |FilterRows(rows, n)|
    ensures sub == FilterRows(rows, n)
    decreases |rows|
  {
    if |rows| > 0 {
      if |rows[0]| == n {
        if sub[0] == rows[0] && IsSubsequence(sub[1..], rows[1..]) {
          FilterRowsIsLongest(sub[1..], rows[1..], n);
          assert sub == [sub[0]] + sub[1..];
        } else {
          WellShapedSubsequenceBound(sub, rows[1..], n);
          assert false;
        }
      } else if |sub| > 0 {
        assert sub[0] != rows[0];
        FilterRowsIsLongest(sub, rows[1..], n);
      }
    }
  }
}
