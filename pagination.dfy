/**
 * The page window of the landing page: the rows of page `currentPage` are
 * `filtered.slice(currentPage * perPage - perPage, currentPage * perPage)`,
 * and the total shown by the table is `filtered.length`.
 */
module Pagination {

  function Min(a: int, b: int): int { if a <= b then a else b }

  /**
   * How `Array.prototype.slice` reads one bound of a list of length `len`:
   * a negative bound counts back from the end (stopping at 0), a bound past
   * the end stops at the end.
   */
  function Clamp(k: int, len: nat): (r: nat)
    ensures r <= len
  {
    if k < 0 then (if len + k < 0 then 0 else len + k) else if k > len then len else k
  }

  /** `s.slice(begin, end)`: empty whenever the clamped end is not past the clamped begin. */
  function Slice<T>(s: seq<T>, begin: int, end: int): (r: seq<T>)
    ensures |r| <= |s|
    ensures forall k :: 0 <= k < |r| ==> r[k] in s
  {
    var b, e := Clamp(begin, |s|), Clamp(end, |s|);
    if b < e then
      assert forall k :: 0 <= k < e - b ==> s[b..e][k] == s[b + k];
      s[b..e]
    else []
  }

  /**
   * With non-negative bounds, `slice` takes the window between them, cut off
   * at the end of the list; a window that starts at or past the end is empty.
   */
  lemma SliceWindow<T>(s: seq<T>, begin: int, end: int)
    requires 0 <= begin <= end
    ensures begin < |s| ==> Slice(s, begin, end) == s[begin..Min(end, |s|)]
    ensures begin >= |s| ==> Slice(s, begin, end) == []
  {
  }

  /** A negative begin counts back from the end: `s.slice(-k, s.length)` is the last `k` elements. */
  lemma SliceFromEnd<T>(s: seq<T>, k: int)
    requires 0 < k <= |s|
    ensures Slice(s, -k, |s|) == s[|s| - k..]
  {
  }

  /** The rows shown on page `currentPage` when pages hold `perPage` rows. */
  function PageRows<T>(filtered: seq<T>, currentPage: int, perPage: int): seq<T> {
    var indexOfLast := currentPage * perPage;
    var indexOfFirst := indexOfLast - perPage;
    Slice(filtered, indexOfFirst, indexOfLast)
  }

  /**
   * For page numbers and sizes of at least one, page `p` is the window
   * `[(p-1)*n, min(p*n, total))` of the filtered list, has at most `n` rows,
   * and is empty, not an error, once it starts past the last row.
   */
  lemma PageWindow<T>(filtered: seq<T>, p: int, n: int)
    requires p >= 1 && n >= 1
    ensures (p - 1) * n < |filtered| ==>
      PageRows(filtered, p, n) == filtered[(p - 1) * n..Min(p * n, |filtered|)]
    ensures (p - 1) * n >= |filtered| ==> PageRows(filtered, p, n) == []
    ensures |PageRows(filtered, p, n)| <= n
  {
    assert p * n - n == (p - 1) * n >= 0;
    SliceWindow(filtered, (p - 1) * n, p * n);
  }

  /** Pages 1 through `k` laid end to end. */
  function Pages<T>(filtered: seq<T>, perPage: int, k: nat): seq<T> {
    if k == 0 then [] else Pages(filtered, perPage, k - 1) + PageRows(filtered, k, perPage)
  }

  /** Pages 1 through `k` are exactly the first `k * n` rows (or all of them). */
  lemma {:induction false} PagesArePrefix<T>(filtered: seq<T>, n: int, k: nat)
    requires n >= 1
    ensures Pages(filtered, n, k) == filtered[..Min(k * n, |filtered|)]
  {
    if k > 0 {
      PagesArePrefix(filtered, n, k - 1);
      PageWindow(filtered, k, n);
      assert (k - 1) * n == k * n - n;
      if (k - 1) * n < |filtered| {
        var a, b := (k - 1) * n, Min(k * n, |filtered|);
        assert filtered[..a] + filtered[a..b] == filtered[..b];
      }
    }
  }

  /** `ceil(total / perPage)`: the number of pages the table offers. */
  function PageCount(total: nat, perPage: int): nat
    requires perPage >= 1
  {
    (total + perPage - 1) / perPage
  }

  /**
   * The page count is the least number of pages that holds every row: its
   * pages cover the list, and its last page is not empty.
   */
  lemma PageCountTight(total: nat, n: int)
    requires n >= 1
    ensures PageCount(total, n) * n >= total
    ensures total > 0 ==> (PageCount(total, n) - 1) * n < total
  {
    var c := PageCount(total, n);
    var r := (total + n - 1) % n;
    assert total + n - 1 == c * n + r && 0 <= r < n;
    assert (c - 1) * n == c * n - n;
  }

  /** Concatenating pages 1 through `ceil(total / perPage)` rebuilds the filtered list. */
  lemma PagesReassemble<T>(filtered: seq<T>, n: int)
    requires n >= 1
    ensures Pages(filtered, n, PageCount(|filtered|, n)) == filtered
  {
    PageCountTight(|filtered|, n);
    PagesArePrefix(filtered, n, PageCount(|filtered|, n));
  }
}
