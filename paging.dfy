/** The paginator the forum queries use, as the services call it:
    `paginator.page(page)`, falling back to page 1 when the page text is not
    an integer and to the last page when the number is out of range. */
module Paging {
  import opened Common
  import PyText

  datatype Page<T> = Page(items: seq<T>, currentPage: nat, totalPages: nat, totalItems: nat, pageSize: nat)

  /** Number of pages: an empty list still has one (empty) page. */
  function NumPages(count: nat, perPage: nat): (n: nat)
    requires perPage >= 1
    ensures n >= 1
    ensures count <= n * perPage
    ensures count == 0 ==> n == 1
    ensures count > 0 ==> (n - 1) * perPage < count
  {
    if count == 0 then 1 else
      var n := (count - 1) / perPage + 1;
      assert (count - 1) / perPage * perPage <= count - 1;
      assert count - 1 < ((count - 1) / perPage + 1) * perPage;
      n
  }

  /** The page the paginator settles on for the requested page text:
      not an integer gives page 1, below 1 or past the end gives the last page. */
  function ResolvePage(requested: string, count: nat, perPage: nat): (p: nat)
    requires perPage >= 1
    ensures 1 <= p <= NumPages(count, perPage)
    ensures PyText.ParseInt(requested).None? ==> p == 1
    ensures PyText.ParseInt(requested).Some? ==>
              var k := PyText.ParseInt(requested).value;
              p == (if 1 <= k <= NumPages(count, perPage) then k else NumPages(count, perPage))
  {
    match PyText.ParseInt(requested)
    case None => 1
    case Some(k) => if 1 <= k <= NumPages(count, perPage) then k else NumPages(count, perPage)
  }

  /** Index of the first item of page p. */
  function PageStart(p: nat, perPage: nat): nat
    requires p >= 1
  {
    (p - 1) * perPage
  }

  lemma PageStartBounds(count: nat, p: nat, perPage: nat)
    requires perPage >= 1 && 1 <= p <= NumPages(count, perPage)
    ensures PageStart(p, perPage) <= count
    ensures p < NumPages(count, perPage) ==> PageStart(p, perPage) + perPage <= count
  {
    var n := NumPages(count, perPage);
    if count > 0 {
      MulMono(p - 1, n - 1, perPage);
      if p < n {
        MulMono(p, n - 1, perPage);
        assert PageStart(p, perPage) + perPage == p * perPage;
      }
    }
  }

  lemma {:induction false} MulMono(a: nat, b: nat, c: nat)
    requires a <= b
    ensures a * c <= b * c
  {
    if c > 0 {
      MulMono(a, b, c - 1);
      assert a * c == a * (c - 1) + a && b * c == b * (c - 1) + b;
    }
  }

  /** The slice of `items` shown on page p. */
  function PageSlice<T>(items: seq<T>, p: nat, perPage: nat): (r: seq<T>)
    requires perPage >= 1 && 1 <= p <= NumPages(|items|, perPage)
    ensures |r| <= perPage
    ensures p < NumPages(|items|, perPage) ==> |r| == perPage
    ensures PageStart(p, perPage) + |r| <= |items|
    ensures p == NumPages(|items|, perPage) ==> PageStart(p, perPage) + |r| == |items|
    ensures forall i :: 0 <= i < |r| ==> r[i] == items[PageStart(p, perPage) + i]
    ensures forall i :: 0 <= i < |r| ==> r[i] in items
  {
    PageStartBounds(|items|, p, perPage);
    var bottom := PageStart(p, perPage);
    var top := if bottom + perPage >= |items| then |items| else bottom + perPage;
    items[bottom..top]
  }

  /** One page of `items`, as the forum services return it. */
  function Paginate<T>(items: seq<T>, requested: string, perPage: nat): (r: Page<T>)
    requires perPage >= 1
    ensures 1 <= r.currentPage <= r.totalPages
    ensures r.totalItems == |items| && r.pageSize == perPage
    ensures r.totalPages == NumPages(|items|, perPage)
    ensures r.currentPage == ResolvePage(requested, |items|, perPage)
    ensures r.items == PageSlice(items, r.currentPage, perPage)
    ensures |r.items| <= perPage
    ensures forall i :: 0 <= i < |r.items| ==> r.items[i] in items
  {
    var p := ResolvePage(requested, |items|, perPage);
    var slice := PageSlice(items, p, perPage);
    Page(slice, p, NumPages(|items|, perPage), |items|, perPage)
  }

  lemma FactorLess(a: nat, b: nat, c: nat)
    requires c >= 1 && a * c < b * c
    ensures a < b
  {
  }

  /** Position i lies on page i / perPage + 1, at offset i % perPage. */
  lemma PageOfPosition(count: nat, i: nat, perPage: nat)
    requires perPage >= 1 && i < count
    ensures 1 <= i / perPage + 1 <= NumPages(count, perPage)
    ensures PageStart(i / perPage + 1, perPage) + i % perPage == i
    ensures i % perPage < perPage
  {
    var n := NumPages(count, perPage);
    var q, r := i / perPage, i % perPage;
    assert i == q * perPage + r && 0 <= r < perPage;
    assert PageStart(q + 1, perPage) == q * perPage;
    assert count <= n * perPage;
    FactorLess(q, n, perPage);
  }

  /** Every item sits on exactly the page its position says: item i is entry
      i % perPage of page i / perPage + 1. */
  lemma ItemOnItsPage<T>(items: seq<T>, i: nat, perPage: nat)
    requires perPage >= 1 && i < |items|
    ensures 1 <= i / perPage + 1 <= NumPages(|items|, perPage)
    ensures var page := PageSlice(items, i / perPage + 1, perPage);
            i % perPage < |page| && page[i % perPage] == items[i]
  {
    PageOfPosition(|items|, i, perPage);
  }
}
