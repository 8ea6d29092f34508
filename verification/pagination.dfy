/**
 * The `paginator` helper of the posts views: every listing is cut into pages of
 * ten items, and the view shows the page the request asks for. Only page numbers
 * inside the range are modelled; pages are numbered from 1.
 */
module Pagination {

  /** Items per page, the constant handed to the paginator by every listing. */
  const PerPage: nat := 10

  /**
   * Number of pages for `n` items. An empty listing still has one (empty) page,
   * so the first page always exists.
   */
  function PageCount(n: nat): (c: nat)
    ensures 1 <= c
    ensures (c - 1) * PerPage < n || (n == 0 && c == 1)
    ensures n <= c * PerPage
  {
    if n <= PerPage then 1 else 1 + PageCount(n - PerPage)
  }

  /** The page numbers a request may ask for. */
  predicate InRange(n: nat, k: nat)
  {
    1 <= k <= PageCount(n)
  }

  /**
   * `r` is page `k` of `items`: at most ten consecutive items starting at item
   * (k-1)*10, and fewer than ten only when it reaches the end of the listing.
   */
  predicate IsPageOf<T(==)>(r: seq<T>, items: seq<T>, k: nat)
  {
    && 1 <= k
    && |r| <= PerPage
    && (k - 1) * PerPage + |r| <= |items|
    && (|r| == PerPage || (k - 1) * PerPage + |r| == |items|)
    && forall i :: 0 <= i < |r| ==> r[i] == items[(k - 1) * PerPage + i]
  }

  /** Page `k` (1-based) of `items`. */
  function Page<T>(items: seq<T>, k: nat): (r: seq<T>)
    requires InRange(|items|, k)
    ensures |r| <= PerPage
    ensures k < PageCount(|items|) ==> |r| == PerPage
    ensures k == PageCount(|items|) ==> (k - 1) * PerPage + |r| == |items|
    ensures |items| > 0 ==> |r| > 0
    ensures (k - 1) * PerPage + |r| <= |items|
    ensures forall i :: 0 <= i < |r| ==> r[i] == items[(k - 1) * PerPage + i]
  {
    var lo := (k - 1) * PerPage;
    var hi := if k * PerPage < |items| then k * PerPage else |items|;
    items[lo..hi]
  }

  /** All pages of `items`, in order. */
  function Pages<T>(items: seq<T>): (ps: seq<seq<T>>)
    ensures |ps| == PageCount(|items|)
  {
    seq(PageCount(|items|), i requires 0 <= i < PageCount(|items|) => Page(items, i + 1))
  }

  /** Concatenation of a sequence of pages. */
  function Concat<T>(pss: seq<seq<T>>): seq<T>
  {
    if |pss| == 0 then [] else pss[0] + Concat(pss[1..])
  }

  /** The page `Page` computes is page `k` in the sense of `IsPageOf`. */
  lemma PageIsPageOf<T>(items: seq<T>, k: nat)
    requires InRange(|items|, k)
    ensures IsPageOf(Page(items, k), items, k)
  {
  }

  /** Page `k` of a listing is unique: any sequence that is page `k` is `Page(items, k)`. */
  lemma PageUnique<T>(r: seq<T>, items: seq<T>, k: nat)
    requires InRange(|items|, k)
    requires IsPageOf(r, items, k)
    ensures r == Page(items, k)
  {
    var p := Page(items, k);
    assert |r| == |p|;
    assert forall i :: 0 <= i < |r| ==> r[i] == p[i];
  }

  /** Page `k + 1` of a list is page `k` of the list without its first page. */
  lemma PageShift<T>(items: seq<T>, k: nat)
    requires |items| > PerPage
    requires InRange(|items| - PerPage, k)
    ensures InRange(|items|, k + 1)
    ensures Page(items, k + 1) == Page(items[PerPage..], k)
  {
  }

  /** Reading every page in turn gives back the whole listing: nothing is lost or repeated. */
  lemma {:induction false} PagesConcat<T>(items: seq<T>)
    ensures Concat(Pages(items)) == items
    decreases |items|
  {
    var ps := Pages(items);
    if |items| <= PerPage {
      assert ps[0] == Page(items, 1) == items;
      assert ps == [items];
      assert Concat(ps) == items + Concat(ps[1..]);
    } else {
      var rest := items[PerPage..];
      PagesConcat(rest);
      var qs := Pages(rest);
      assert |ps| == |qs| + 1;
      forall i | 0 <= i < |qs| ensures ps[i + 1] == qs[i] {
        PageShift(items, i + 1);
      }
      assert ps[1..] == qs;
      assert ps[0] == items[..PerPage];
      assert Concat(ps) == items[..PerPage] + rest;
      assert items == items[..PerPage] + rest;
    }
  }

  /** Every item shown on some page belongs to the listing. */
  lemma PageMembers<T>(items: seq<T>, k: nat, x: T)
    requires InRange(|items|, k)
    requires x in Page(items, k)
    ensures x in items
  {
    var r := Page(items, k);
    var i :| 0 <= i < |r| && r[i] == x;
    assert items[(k - 1) * PerPage + i] == x;
  }

  /** Every item of the listing is shown on some in-range page. */
  lemma PageOfItem<T>(items: seq<T>, i: nat)
    requires i < |items|
    ensures InRange(|items|, i / PerPage + 1)
    ensures items[i] in Page(items, i / PerPage + 1)
  {
    var k := i / PerPage + 1;
    assert (k - 1) * PerPage <= i < k * PerPage;
    var r := Page(items, k);
    assert r[i - (k - 1) * PerPage] == items[i];
  }

  /** Thirteen posts make a full first page of ten and a second page of three. */
  lemma ThirteenItems<T>(items: seq<T>)
    requires |items| == 13
    ensures PageCount(|items|) == 2
    ensures |Page(items, 1)| == 10
    ensures |Page(items, 2)| == 3
  {
    assert PageCount(3) == 1;
  }
}
