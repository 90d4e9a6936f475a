/** The page counter both admin list pages keep in a module-level variable:
    the previous-page button steps back only from a page above 1, the
    next-page button always steps forward, and a new search starts over at
    page 1. Only the applications page's requests are answered; the
    applications listing clamps a page past the end (ServedPage). */
module PageCounters {
  import opened Common
  import PyText
  import Paging

  class PageCounter {
    var page: int

    ghost predicate Valid()
      reads this
    {
      page >= 1
    }

    constructor ()
      ensures Valid() && page == 1
    {
      page := 1;
    }

    /** The previous-page handler; `reload` says whether it fetches again. */
    method Prev() returns (reload: bool)
      requires Valid()
      modifies this
      ensures Valid()
      ensures reload <==> old(page) > 1
      ensures page == if reload then old(page) - 1 else old(page)
    {
      reload := page > 1;
      if reload {
        page := page - 1;
      }
    }

    /** The next-page handler. */
    method Next()
      requires Valid()
      modifies this
      ensures Valid() && page == old(page) + 1
    {
      page := page + 1;
    }

    /** The search button: back to the first page. */
    method Reset()
      modifies this
      ensures Valid() && page == 1
    {
      page := 1;
    }
  }

  /** The page `application_list` answers for the applications page's
      counter, sent as its decimal text and read back with `int()` before
      `get_page`: the page itself while it exists, the last page once the
      counter has run past the end. */
  lemma ServedPage(page: int, count: nat, perPage: nat)
    requires page >= 1 && perPage >= 1
    ensures Paging.ResolvePage(IntToDecimal(page), count, perPage) ==
            if page <= Paging.NumPages(count, perPage) then page else Paging.NumPages(count, perPage)
  {
    PyText.ParseIntOfDecimal(page);
  }
}
