/**
 The read API's pagination: page `page` of `limit` items is the slice
 `data[(page-1)*limit : page*limit]`, reported together with the total item
 count and the number of pages `(len + limit - 1) // limit`. Only
 `page >= 1` and `limit >= 1` are modelled.
 */
module Pagination {
  import opened Arith

  datatype Page<T> = Page(page: int, limit: int, totalItems: nat, totalPages: int, data: seq<T>)

  /** Python's `s[lo:hi]` for non-negative bounds: both are clipped to the
      length, and a reversed range is empty. */
  function Slice<T>(s: seq<T>, lo: nat, hi: nat): (r: seq<T>)
    ensures |r| == Max(0, Min(hi, |s|) - lo)
    ensures forall k :: 0 <= k < |r| ==> r[k] == s[lo + k]
  {
    var a := Min(lo, |s|);
    var b := Min(hi, |s|);
    if a < b then s[a..b] else []
  }

  /** `get_paginated_data` for `page >= 1` and `limit >= 1`. */
  function Paginate<T>(data: seq<T>, page: int, limit: int): (r: Page<T>)
    requires page >= 1 && limit >= 1
    ensures r.page == page && r.limit == limit
    ensures r.totalItems == |data|
    // the page is the contiguous, in-order run of items from (page-1)*limit,
    // never more than `limit` of them, clipped at the end of the data
    ensures |r.data| <= limit
    ensures |r.data| == Max(0, Min(limit, |data| - (page - 1) * limit))
    ensures forall k :: 0 <= k < |r.data| ==>
      0 <= (page - 1) * limit + k < |data| && r.data[k] == data[(page - 1) * limit + k]
    // the page count is the ceiling of len / limit
    ensures r.totalPages * limit >= |data|
    ensures |data| > 0 ==> (r.totalPages - 1) * limit < |data|
    ensures r.totalPages == 0 <==> |data| == 0
  {
    var start := (page - 1) * limit;
    var end := start + limit;
    var totalPages := (|data| + limit - 1) / limit;
    MulMonotone(0, page - 1, limit);
    CeilingDivision(|data|, limit);
    Page(page, limit, |data|, totalPages, Slice(data, start, end))
  }

  /** `(n + d - 1) / d` is the ceiling of `n / d`. */
  lemma {:induction false} CeilingDivision(n: nat, d: int)
    requires d >= 1
    ensures (n + d - 1) / d >= 0
    ensures (n + d - 1) / d * d >= n
    ensures n > 0 ==> ((n + d - 1) / d - 1) * d < n
    ensures (n + d - 1) / d == 0 <==> n == 0
  {
    var q := (n + d - 1) / d;
    var rem := (n + d - 1) % d;
    assert n + d - 1 == q * d + rem && 0 <= rem < d;
    assert (q - 1) * d == q * d - d;
    if n == 0 {
      assert q == 0;
    }
  }

  /** Multiplying by a positive count preserves order. */
  lemma MulMonotone(a: int, b: int, d: int)
    requires a <= b && d >= 0
    ensures a * d <= b * d
  {
    assert b * d - a * d == (b - a) * d;
  }

  /** Every page numbered below the page count is full; any page after the
      last one is empty; the last page is not empty. */
  lemma {:induction false} PageSizes<T>(data: seq<T>, page: int, limit: int)
    requires page >= 1 && limit >= 1
    ensures page < Paginate(data, page, limit).totalPages ==> |Paginate(data, page, limit).data| == limit
    ensures page == Paginate(data, page, limit).totalPages ==> |Paginate(data, page, limit).data| > 0
    ensures page > Paginate(data, page, limit).totalPages ==> |Paginate(data, page, limit).data| == 0
  {
    var t := Paginate(data, page, limit).totalPages;
    if page < t {
      MulMonotone(page, t - 1, limit);
      assert (page - 1) * limit + limit == page * limit;
    } else if page == t {
      assert (page - 1) * limit < |data|;
    } else {
      MulMonotone(t, page - 1, limit);
    }
  }

  /** The items of pages 1 .. `count`, concatenated in page order. */
  function Pages<T>(data: seq<T>, limit: int, count: nat): (r: seq<T>)
    requires limit >= 1
  {
    if count == 0 then [] else Pages(data, limit, count - 1) + Paginate(data, count, limit).data
  }

  /** Page `page` is the slice between the clipped offsets of its first item
      and of the first item of the next page. */
  lemma {:induction false} PageIsSlice<T>(data: seq<T>, page: int, limit: int)
    requires page >= 1 && limit >= 1
    ensures 0 <= (page - 1) * limit && (page - 1) * limit + limit == page * limit
    ensures Paginate(data, page, limit).data
         == data[Min((page - 1) * limit, |data|)..Min(page * limit, |data|)]
  {
    MulMonotone(0, page - 1, limit);
    var a := (page - 1) * limit;
    assert a + limit == page * limit;
    var p := Paginate(data, page, limit).data;
    var lo := Min(a, |data|);
    var hi := Min(a + limit, |data|);
    assert |p| == hi - lo;
    forall k | 0 <= k < |p|
      ensures p[k] == data[lo..hi][k]
    {
      assert p[k] == data[a + k];
    }
  }

  /** The first `count` pages are exactly the first `count * limit` items. */
  lemma {:induction false} PagesArePrefix<T>(data: seq<T>, limit: int, count: nat)
    requires limit >= 1
    ensures 0 <= count * limit
    ensures Pages(data, limit, count) == data[..Min(count * limit, |data|)]
  {
    if count == 0 {
      assert count * limit == 0;
    } else {
      PagesArePrefix(data, limit, count - 1);
      NextPageExtendsPrefix(data, limit, count);
    }
  }

  /** If the first `count - 1` pages are a prefix of the data, then page
      `count` continues it. */
  lemma {:induction false} NextPageExtendsPrefix<T>(data: seq<T>, limit: int, count: nat)
    requires limit >= 1 && count >= 1
    requires 0 <= (count - 1) * limit
    requires Pages(data, limit, count - 1) == data[..Min((count - 1) * limit, |data|)]
    ensures 0 <= count * limit
    ensures Pages(data, limit, count) == data[..Min(count * limit, |data|)]
  {
    PageIsSlice(data, count, limit);
    var lo := Min((count - 1) * limit, |data|);
    var hi := Min(count * limit, |data|);
    assert lo <= hi;
    assert Pages(data, limit, count) == data[..lo] + data[lo..hi];
    assert data[..lo] + data[lo..hi] == data[..hi];
  }

  /** Reading pages 1 .. total_pages in order gives back the whole data: no
      item is lost, repeated or moved. */
  lemma {:induction false} PagesReassemble<T>(data: seq<T>, limit: int)
    requires limit >= 1
    ensures Pages(data, limit, Paginate(data, 1, limit).totalPages) == data
  {
    var t := Paginate(data, 1, limit).totalPages;
    PagesArePrefix(data, limit, t);
    assert data[..|data|] == data;
  }
}
