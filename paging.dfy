/** The `page` / `limit` window that every listing applies after filtering and ordering. */
module Paging {
  import opened Common
  import opened Seqs

  type Pos = n: int | n >= 1 witness 1

  datatype SortOrder = ASC | DESC

  /** The pagination query: `page` and `limit` default to 1 and 10. */
  datatype PageQuery = PageQuery(page: Option<Pos>, limit: Option<Pos>)

  function PageOf(q: PageQuery): Pos { q.page.GetOr(1) }
  function LimitOf(q: PageQuery): Pos { q.limit.GetOr(10) }

  datatype Meta = Meta(page: Pos, limit: Pos, total: nat)

  /** A listing result: one page of items and the count of all matches before paging. */
  datatype Paged<T> = Paged(data: seq<T>, meta: Meta)

  /** `skip((page - 1) * limit)` */
  function Offset(page: Pos, limit: Pos): nat { (page - 1) * limit }

  /** `.skip((page - 1) * limit).take(limit)` over an ordered result. */
  function Window<T>(s: seq<T>, page: Pos, limit: Pos): (w: seq<T>)
    ensures |w| == Min(limit, |s| - Min(Offset(page, limit), |s|))
    ensures forall k :: 0 <= k < |w| ==> Offset(page, limit) + k < |s| && w[k] == s[Offset(page, limit) + k]
  {
    var lo := Min(Offset(page, limit), |s|);
    s[lo..Min(lo + limit, |s|)]
  }

  /** Every element of a page comes from the ordered result, in the same relative order. */
  lemma WindowFacts<T>(s: seq<T>, page: Pos, limit: Pos, R: (T, T) -> bool)
    requires Pairwise(s, R)
    ensures forall k :: 0 <= k < |Window(s, page, limit)| ==> Window(s, page, limit)[k] in s
    ensures Pairwise(Window(s, page, limit), R)
  {
    var w := Window(s, page, limit);
    var off := Offset(page, limit);
    forall i, j | 0 <= i < j < |w| ensures R(w[i], w[j]) {
      assert w[i] == s[off + i] && w[j] == s[off + j];
    }
  }

  /** Pages 1..n of `s`, one after another. */
  function Pages<T>(s: seq<T>, limit: Pos, n: nat): seq<T>
  {
    if n == 0 then [] else Pages(s, limit, n - 1) + Window(s, n as Pos, limit)
  }

  /** The first n pages are exactly the first n * limit elements: no element is repeated or skipped. */
  lemma {:induction false} PagesArePrefix<T>(s: seq<T>, limit: Pos, n: nat)
    ensures Pages(s, limit, n) == s[..Min(n * limit, |s|)]
  {
    if n > 0 {
      PagesArePrefix(s, limit, n - 1);
      var lo := Min((n - 1) * limit, |s|);
      var hi := Min(n * limit, |s|);
      assert Offset(n as Pos, limit) == (n - 1) * limit;
      assert Window(s, n as Pos, limit) == s[lo..hi];
      assert s[..lo] + s[lo..hi] == s[..hi];
    }
  }

  /** The number of pages needed to show `total` items (`Math.ceil(total / limit)`). */
  function TotalPages(total: nat, limit: Pos): nat { (total + limit - 1) / limit }

  /** Concatenating pages 1..TotalPages gives back the whole ordered result. */
  lemma PagesComplete<T>(s: seq<T>, limit: Pos)
    ensures Pages(s, limit, TotalPages(|s|, limit)) == s
  {
    var n := TotalPages(|s|, limit);
    PagesArePrefix(s, limit, n);
    assert n * limit >= |s|;
  }
}
