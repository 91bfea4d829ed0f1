/** The `limit`/`page` paging shared by the list resolvers: the offset they
    pass as `skip`, the records a page then holds, and the reported total. */
module Paging {
  import opened Wrappers

  /** `data.total` and `data.result` of a paged answer. */
  datatype PagingData<T> = PagingData(total: int, result: seq<T>)

  /** The offset `page > 0 ? (page - 1) * limit : 0`. */
  function Skip(page: int, limit: int): (skip: int)
    ensures page <= 1 ==> skip == 0
    ensures limit >= 0 ==> skip >= 0
  {
    if page > 0 then (page - 1) * limit else 0
  }

  /** Pages are adjacent: page p + 1 starts exactly `limit` records after page p. */
  lemma NextPageFollows(page: int, limit: int)
    requires page >= 1
    ensures Skip(page + 1, limit) == Skip(page, limit) + limit
  {
    assert page * limit == (page - 1) * limit + limit;
  }

  function Clamp(x: int, n: nat): (r: nat)
    ensures r <= n
  {
    if x < 0 then 0 else if x > n then n else x
  }

  /** The records of one page of an id list: `limit` of them from offset
      Skip(page, limit), cut off at the end of the list. */
  function Page<T>(ids: seq<T>, page: int, limit: nat): (r: seq<T>)
    ensures |r| <= limit
  {
    var lo := Clamp(Skip(page, limit), |ids|);
    ids[lo..Clamp(lo + limit, |ids|)]
  }

  /** A paged answer shown only to an authorized viewer: null otherwise, and
      else the total count of ids with the requested page of them. */
  function GatedPage<T>(authorized: bool, ids: seq<T>, page: int, limit: nat): (r: Option<PagingData<T>>)
    ensures r.Some? <==> authorized
    ensures r.Some? ==> r.value.total == |ids| && |r.value.result| <= limit
  {
    if !authorized then None
    else Some(PagingData(|ids|, Page(ids, page, limit)))
  }

  /** Pages 1 to n, one after the other. */
  function FirstPages<T>(ids: seq<T>, n: nat, limit: nat): seq<T>
  {
    if n == 0 then [] else FirstPages(ids, n - 1, limit) + Page(ids, n, limit)
  }

  /** Reading pages 1, 2, ..., n in turn yields the list's first n * limit
      records in order, with none skipped and none repeated. */
  lemma {:induction false} FirstPagesArePrefix<T>(ids: seq<T>, n: nat, limit: nat)
    ensures FirstPages(ids, n, limit) == ids[..Clamp(n * limit, |ids|)]
  {
    if n > 0 {
      FirstPagesArePrefix(ids, n - 1, limit);
      assert Skip(n, limit) == (n - 1) * limit;
      assert (n - 1) * limit + limit == n * limit;
      assert (n - 1) * limit >= 0;
      var a, b := Clamp((n - 1) * limit, |ids|), Clamp(n * limit, |ids|);
      assert ids[..a] + ids[a..b] == ids[..b];
    }
  }

  /** With a positive limit, enough pages read in turn give back the whole list. */
  lemma PagesCoverList<T>(ids: seq<T>, limit: nat)
    requires limit > 0
    ensures FirstPages(ids, |ids|, limit) == ids
  {
    FirstPagesArePrefix(ids, |ids|, limit);
    assert |ids| * limit >= |ids|;
  }
}
