/**
  Page slicing as every listing view does it: a `Paginator` over the
  ordered rows with a fixed page size, and `get_page` on the `page`
  query parameter. The paginator keeps its defaults: no orphans, and an
  empty first page is allowed.

  Page arithmetic is written by repeated subtraction and addition, so
  that the proofs stay linear; `NumPagesIsCeiling` and `BottomIsProduct`
  connect it to the paginator's ceiling and its `(number - 1) * per_page`.
*/
module Pagination {

  /** The `page` query parameter: absent, not an integer, or an integer. */
  datatype PageArg = Absent | NotAnInteger | Number(n: int)

  /** One page of a listing: its rows, its 1-based number, and how many pages there are. */
  datatype Page<T> = Page(items: seq<T>, number: nat, numPages: nat)

  /** Number of pages for `count` rows: one, or one more than for the rows after the first page. */
  function NumPages(count: nat, perPage: nat): (n: nat)
    requires perPage > 0
    ensures n >= 1
    decreases count
  {
    if count <= perPage then 1 else 1 + NumPages(count - perPage, perPage)
  }

  /** Index of the first row of page `k`. */
  function Bottom(k: nat, perPage: nat): nat
    requires k >= 1
  {
    if k == 1 then 0 else Bottom(k - 1, perPage) + perPage
  }

  /** The page that row `i` falls on. */
  function PageOf(i: nat, perPage: nat): (k: nat)
    requires perPage > 0
    ensures k >= 1
    decreases i
  {
    if i < perPage then 1 else 1 + PageOf(i - perPage, perPage)
  }

  /** The paginator's page count is ceil(max(1, count) / perPage). */
  lemma {:induction false} NumPagesIsCeiling(count: nat, perPage: nat)
    requires perPage > 0
    ensures var n := NumPages(count, perPage);
      (n - 1) * perPage < (if count == 0 then 1 else count) <= n * perPage
    decreases count
  {
    var n := NumPages(count, perPage);
    if count > perPage {
      NumPagesIsCeiling(count - perPage, perPage);
      assert n * perPage == perPage + (n - 1) * perPage;
      assert (n - 1) * perPage == perPage + (n - 2) * perPage;
    }
  }

  /** Page `k` starts at row `(k - 1) * perPage`. */
  lemma {:induction false} BottomIsProduct(k: nat, perPage: nat)
    requires k >= 1
    ensures Bottom(k, perPage) == (k - 1) * perPage
  {
    if k > 1 {
      BottomIsProduct(k - 1, perPage);
      assert (k - 1) * perPage == (k - 2) * perPage + perPage;
    }
  }

  /**
    The page number `get_page` settles on: 1 for a missing or non-integer
    parameter, the requested number when it names a page, and the last page
    when it is out of range on either side.
  */
  function PageNumber(arg: PageArg, numPages: nat): (k: nat)
    requires numPages >= 1
    ensures 1 <= k <= numPages
    ensures arg.Number? && 1 <= arg.n <= numPages ==> k == arg.n
    ensures arg.Number? && !(1 <= arg.n <= numPages) ==> k == numPages
    ensures !arg.Number? ==> k == 1
  {
    match arg
    case Absent => 1
    case NotAnInteger => 1
    case Number(n) => if 1 <= n <= numPages then n else numPages
  }

  /** Every page starts inside the listing; all pages but the last are full. */
  lemma {:induction false} BottomInRange(count: nat, perPage: nat, k: nat)
    requires perPage > 0 && 1 <= k <= NumPages(count, perPage)
    ensures Bottom(k, perPage) <= count
    ensures k < NumPages(count, perPage) ==> Bottom(k, perPage) + perPage < count
    ensures k == NumPages(count, perPage) ==> Bottom(k, perPage) + perPage >= count
    decreases k
  {
    if k > 1 {
      BottomInRange(count - perPage, perPage, k - 1);
    }
  }

  /**
    `Paginator(xs, perPage).get_page(arg)`: the page of `xs` selected by
    `arg`, a window of consecutive rows starting at `Bottom(number)`;
    every page but the last is full, and the last holds the remaining rows.
  */
  function GetPage<T>(xs: seq<T>, perPage: nat, arg: PageArg): (p: Page<T>)
    requires perPage > 0
    ensures p.numPages == NumPages(|xs|, perPage)
    ensures p.number == PageNumber(arg, p.numPages)
    ensures |p.items| <= perPage
    ensures p.number < p.numPages ==> |p.items| == perPage
    ensures p.number == p.numPages ==> |p.items| == |xs| - Bottom(p.number, perPage)
    ensures Bottom(p.number, perPage) + |p.items| <= |xs|
    ensures forall i :: 0 <= i < |p.items| ==> p.items[i] == xs[Bottom(p.number, perPage) + i]
  {
    var np := NumPages(|xs|, perPage);
    var k := PageNumber(arg, np);
    BottomInRange(|xs|, perPage, k);
    var lo := Bottom(k, perPage);
    var hi := if lo + perPage >= |xs| then |xs| else lo + perPage;
    Page(xs[lo..hi], k, np)
  }

  /** Row `i` lies in the window of page `PageOf(i)`. */
  lemma {:induction false} PageOfBounds(i: nat, perPage: nat)
    requires perPage > 0
    ensures Bottom(PageOf(i, perPage), perPage) <= i < Bottom(PageOf(i, perPage), perPage) + perPage
    decreases i
  {
    if i >= perPage {
      PageOfBounds(i - perPage, perPage);
    }
  }

  /** A row of the listing falls on one of its pages. */
  lemma {:induction false} PageOfInRange(count: nat, i: nat, perPage: nat)
    requires perPage > 0 && i < count
    ensures PageOf(i, perPage) <= NumPages(count, perPage)
    decreases i
  {
    if i >= perPage {
      PageOfInRange(count - perPage, i - perPage, perPage);
    }
  }

  /** Page `k` holds row `i` only when `k` is `PageOf(i)`: no row is on two pages. */
  lemma {:induction false} RowOnOnePage(perPage: nat, i: nat, k: nat)
    requires perPage > 0 && k >= 1
    requires Bottom(k, perPage) <= i < Bottom(k, perPage) + perPage
    ensures k == PageOf(i, perPage)
    decreases k
  {
    if k > 1 {
      RowOnOnePage(perPage, i - perPage, k - 1);
    }
  }

  /** Asking for the page of row `i` shows row `i`, at position `i - Bottom(page)`. */
  lemma RowOnItsPage<T>(xs: seq<T>, perPage: nat, i: nat)
    requires perPage > 0 && i < |xs|
    ensures var k := PageOf(i, perPage);
      var p := GetPage(xs, perPage, Number(k));
      p.number == k && Bottom(k, perPage) <= i && i - Bottom(k, perPage) < |p.items|
      && p.items[i - Bottom(k, perPage)] == xs[i]
  {
    PageOfBounds(i, perPage);
    PageOfInRange(|xs|, i, perPage);
  }

  /** An empty listing has one page, and it is empty: not an error. */
  lemma EmptyListingOnePage<T>(xs: seq<T>, perPage: nat, arg: PageArg)
    requires perPage > 0 && xs == []
    ensures GetPage(xs, perPage, arg) == Page([], 1, 1)
  {
  }

  /** Thirteen rows, ten to a page: page 1 holds ten, page 2 the last three, and page 3 falls back to page 2. */
  lemma ThirteenRowsTenPerPage<T>(xs: seq<T>)
    requires |xs| == 13
    ensures |GetPage(xs, 10, Number(1)).items| == 10
    ensures GetPage(xs, 10, Number(2)).items == xs[10..]
    ensures GetPage(xs, 10, Number(3)) == GetPage(xs, 10, Number(2))
    ensures GetPage(xs, 10, Absent) == GetPage(xs, 10, Number(1))
  {
    assert NumPages(13, 10) == 2;
    assert Bottom(2, 10) == 10;
  }
}
