/** Offset pagination over an insertion-ordered collection: the
    `skip(offset).limit(PageSize)` query and the `Math.ceil(count / PageSize)`
    page count of the GET /data handler, and how the pages cover the
    collection. */
module Pagination {

  /** Records per page; fixed, not configurable. */
  const PageSize: nat := 5

  function Min(a: int, b: int): int {
    if a <= b then a else b
  }

  function Max(a: int, b: int): int {
    if a >= b then a else b
  }

  /** `Math.ceil(count / PageSize)`, computed exactly in integers: the least
      number of pages that holds `count` records. */
  function TotalPages(count: nat): (pages: nat)
    ensures pages * PageSize >= count
    ensures pages == 0 || (pages - 1) * PageSize < count
    ensures pages == 0 <==> count == 0
  {
    (count + PageSize - 1) / PageSize
  }

  /** Index of the first record of `page`: `(page - 1) * PageSize`. It is
      negative for every page below 1. */
  function Offset(page: int): (offset: int)
    ensures offset >= 0 <==> page >= 1
  {
    (page - 1) * PageSize
  }

  /** The store's `skip(n)`: everything after the first `n` records. */
  function Skip<T>(s: seq<T>, n: nat): (r: seq<T>)
    ensures |r| == Max(0, |s| - n)
    ensures forall i :: 0 <= i < |r| ==> r[i] == s[n + i]
  {
    s[Min(n, |s|)..]
  }

  /** The store's `limit(n)`: at most the first `n` records. A limit of 0
      means "no limit" to the store; the handler never issues it. */
  function Limit<T>(s: seq<T>, n: nat): (r: seq<T>)
    ensures n > 0 ==> |r| == Min(n, |s|)
    ensures n == 0 ==> r == s
    ensures forall i :: 0 <= i < |r| ==> r[i] == s[i]
  {
    if n == 0 then s else s[..Min(n, |s|)]
  }

  /** The records shown on `page` (1-based). */
  function Page<T>(s: seq<T>, page: int): (r: seq<T>)
    requires page >= 1
    ensures |r| <= PageSize
    ensures |r| == Min(PageSize, Max(0, |s| - Offset(page)))
    ensures r == s[Min(Offset(page), |s|)..Min(Offset(page) + PageSize, |s|)]
  {
    var r := Limit(Skip(s, Offset(page)), PageSize);
    assert r == s[Min(Offset(page), |s|)..Min(Offset(page) + PageSize, |s|)];
    r
  }

  /** A page has records exactly when it is one of the first
      `TotalPages(|s|)` pages. */
  lemma PageNonEmptyIff<T>(s: seq<T>, page: int)
    requires page >= 1
    ensures Page(s, page) != [] <==> page <= TotalPages(|s|)
  {
    var total := TotalPages(|s|);
    if page <= total {
      assert (page - 1) * PageSize <= (total - 1) * PageSize;
      assert |Page(s, page)| > 0;
    } else {
      assert page - 1 >= total;
      assert (page - 1) * PageSize >= total * PageSize;
    }
  }

  /** Every page before the last one is full. */
  lemma EarlierPagesAreFull<T>(s: seq<T>, page: int)
    requires 1 <= page < TotalPages(|s|)
    ensures |Page(s, page)| == PageSize
  {
    var total := TotalPages(|s|);
    assert page <= total - 1;
    assert page * PageSize <= (total - 1) * PageSize;
  }

  /** Pages 1 through `k`, concatenated in order. */
  function Pages<T>(s: seq<T>, k: nat): seq<T> {
    if k == 0 then [] else Pages(s, k - 1) + Page(s, k)
  }

  /** The first `k` pages are the first `k * PageSize` records (or all of
      them). */
  lemma {:induction false} PagesArePrefix<T>(s: seq<T>, k: nat)
    ensures Pages(s, k) == s[..Min(k * PageSize, |s|)]
  {
    if k > 0 {
      var lo := Min((k - 1) * PageSize, |s|);
      var hi := Min(k * PageSize, |s|);
      PagesArePrefix(s, k - 1);
      PageBounds(s, k);
      SliceJoin(s, lo, hi);
    }
  }

  lemma SliceJoin<T>(s: seq<T>, lo: int, hi: int)
    requires 0 <= lo <= hi <= |s|
    ensures s[..lo] + s[lo..hi] == s[..hi]
  {
  }

  /** Page `k` runs from record `(k - 1) * PageSize` up to record
      `k * PageSize`, both cut at the end of the collection. */
  lemma PageBounds<T>(s: seq<T>, k: nat)
    requires k >= 1
    ensures Page(s, k) == s[Min((k - 1) * PageSize, |s|)..Min(k * PageSize, |s|)]
  {
    assert Offset(k) == (k - 1) * PageSize;
    assert Offset(k) + PageSize == k * PageSize;
  }

  /** Reading pages 1 through `TotalPages(|s|)` in order yields the whole
      collection, each record once. */
  lemma PagesTileStore<T>(s: seq<T>)
    ensures Pages(s, TotalPages(|s|)) == s
  {
    PagesArePrefix(s, TotalPages(|s|));
  }

  /** Appending one record changes only the page it lands on. */
  lemma AppendChangesOnlyLastPage<T>(s: seq<T>, x: T, page: int)
    requires page >= 1 && page != TotalPages(|s| + 1)
    ensures Page(s + [x], page) == Page(s, page)
  {
    var total := TotalPages(|s| + 1);
    var o := Offset(page);
    if page < total {
      assert page <= total - 1;
      assert page * PageSize <= (total - 1) * PageSize;
      assert (s + [x])[o..o + PageSize] == s[o..o + PageSize];
    } else {
      assert page - 1 >= total;
      assert (page - 1) * PageSize >= total * PageSize;
    }
  }

  /** An appended record is the last record of page `TotalPages(|s| + 1)`. */
  lemma AppendLandsOnLastPage<T>(s: seq<T>, x: T)
    ensures TotalPages(|s| + 1) >= 1
    ensures var last := Page(s + [x], TotalPages(|s| + 1));
            last != [] && last[|last| - 1] == x
  {
    var total := TotalPages(|s| + 1);
    var last := Page(s + [x], total);
    assert Min(Offset(total) + PageSize, |s| + 1) == |s| + 1;
    assert last[|last| - 1] == (s + [x])[|s|];
  }
}
