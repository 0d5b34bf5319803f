/** `get_page`: every feed is cut into pages of ten items by Django's
    `Paginator(post_list, 10).get_page(request.GET.get('page'))`. */
module Paging {

  /** `POSTS_AMOUNT`, the page size of every feed. */
  const PageSize: nat := 10

  /** The `page` query parameter: absent, not an integer, or an integer. */
  datatype PageRequest = Missing | NotAnInteger | Number(n: int)

  /** `page_obj`: the items of one page, its 1-based number and the page count. */
  datatype Page<T> = Page(items: seq<T>, number: nat, numPages: nat)

  function Min(a: int, b: int): int { if a <= b then a else b }

  /** `paginator.num_pages`: `ceil(count / 10)`, and one (empty) page for an empty list. */
  function NumPages(count: nat): (r: nat)
    ensures r >= 1
    ensures count == 0 ==> r == 1
    ensures count > 0 ==> (r - 1) * PageSize < count <= r * PageSize
  {
    if count == 0 then 1 else (count + PageSize - 1) / PageSize
  }

  /** The page `get_page` serves: page 1 when the parameter is absent or not an
      integer, the requested page when it exists, and the last page when the
      number is below 1 or beyond the last page. */
  function PageNumber(req: PageRequest, count: nat): (k: nat)
    ensures 1 <= k <= NumPages(count)
  {
    match req
    case Missing => 1
    case NotAnInteger => 1
    case Number(n) => if 1 <= n <= NumPages(count) then n else NumPages(count)
  }

  /** The page of `items` that `get_page` returns for `req`. */
  function GetPage<T>(items: seq<T>, req: PageRequest): (p: Page<T>)
    ensures p.number == PageNumber(req, |items|) && p.numPages == NumPages(|items|)
    ensures (p.number - 1) * PageSize <= Min(p.number * PageSize, |items|) <= |items|
    ensures p.items == items[(p.number - 1) * PageSize .. Min(p.number * PageSize, |items|)]
    ensures |p.items| <= PageSize
    ensures items != [] ==> p.items != []
  {
    var k := PageNumber(req, |items|);
    var bottom := (k - 1) * PageSize;
    var top := if bottom + PageSize >= |items| then |items| else bottom + PageSize;
    Page(items[bottom..top], k, NumPages(|items|))
  }

  /** A feed of at least ten items shows exactly its first ten on the first page. */
  lemma FirstPageFull<T>(items: seq<T>, req: PageRequest)
    requires req.Missing? || req.NotAnInteger? || req == Number(1)
    requires |items| >= PageSize
    ensures GetPage(items, req).items == items[..PageSize]
    ensures |GetPage(items, req).items| == PageSize
  {
  }

  /** The last page holds `count mod 10` items, or ten when that remainder is zero. */
  lemma LastPageSize<T>(items: seq<T>)
    requires items != []
    ensures |GetPage(items, Number(NumPages(|items|))).items| ==
      if |items| % PageSize == 0 then PageSize else |items| % PageSize
  {
  }

  /** A page number past the end (or below 1) serves the last page. */
  lemma OutOfRangeIsLastPage<T>(items: seq<T>, n: int)
    requires n < 1 || n > NumPages(|items|)
    ensures GetPage(items, Number(n)) == GetPage(items, Number(NumPages(|items|)))
  {
  }

  /** The last-page number the tests compute, `count // 10 + 1`, serves the
      `count mod 10` (or ten) items they expect, also when it is one past the end. */
  lemma TestsLastPageNumber<T>(items: seq<T>)
    requires items != []
    ensures |GetPage(items, Number(|items| / PageSize + 1)).items| ==
      if |items| % PageSize == 0 then PageSize else |items| % PageSize
  {
    if |items| % PageSize == 0 {
      OutOfRangeIsLastPage(items, |items| / PageSize + 1);
    }
    LastPageSize(items);
  }

  /** Item `i` is the `(i mod 10)`-th item of page `i div 10 + 1`. */
  lemma ItemOnPage<T>(items: seq<T>, i: nat)
    requires i < |items|
    ensures var p := GetPage(items, Number(i / PageSize + 1));
      p.number == i / PageSize + 1 && i % PageSize < |p.items| && p.items[i % PageSize] == items[i]
  {
  }

  /** The pages from page `k` on, read one after the other. */
  ghost function PagesFrom<T>(items: seq<T>, k: nat): seq<T>
    requires k >= 1
    decreases |items| - (k - 1) * PageSize
  {
    if (k - 1) * PageSize >= |items| then []
    else GetPage(items, Number(k)).items + PagesFrom(items, k + 1)
  }

  /** Reading the pages in order gives back the whole feed, each item once. */
  lemma {:induction false} PagesCoverFeed<T>(items: seq<T>)
    ensures PagesFrom(items, 1) == items
  {
    PagesFromSuffix(items, 1);
  }

  lemma {:induction false} PagesFromSuffix<T>(items: seq<T>, k: nat)
    requires k >= 1
    ensures (k - 1) * PageSize <= |items| ==> PagesFrom(items, k) == items[(k - 1) * PageSize..]
    decreases |items| - (k - 1) * PageSize
  {
    var lo := (k - 1) * PageSize;
    if lo < |items| {
      assert k * PageSize == lo + PageSize;
      PagesFromSuffix(items, k + 1);
      var p := GetPage(items, Number(k));
      assert p.number == k;
      if lo + PageSize <= |items| {
        assert items[lo..] == p.items + items[lo + PageSize..];
      } else {
        assert p.items == items[lo..];
      }
    }
  }
}
