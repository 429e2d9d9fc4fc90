/**
 * The parameters `findAll` computes before it queries the quotes store:
 * page and limit with their defaults, the number of documents to skip, the
 * sort, the filter, and the page count for a given total.
 */
module Querying {
  import opened Wrappers
  import opened Model

  /** The query string of `GET /quotes`; page and limit already read as integers. */
  datatype ListQuery = ListQuery(
    page: Option<int>,
    limit: Option<int>,
    sortBy: Option<string>,
    order: Option<string>,
    search: Option<string>,
    filter: Option<string>)

  /** `{[field]: direction}`: 1 for ascending, -1 for descending. */
  datatype SortSpec = SortSpec(field: string, direction: int)

  /** The Mongo filter: an optional text pattern and an optional counter that must be positive. */
  datatype Filter = Filter(textPattern: Option<string>, positiveCounter: Option<VoteType>)

  /** Everything `findAll` returns except the page of documents itself. */
  datatype Listing = Listing(
    page: int,
    limit: int,
    skip: int,
    sort: SortSpec,
    filter: Filter,
    total: nat,
    totalPages: int)

  const DefaultPage: int := 1
  const DefaultLimit: int := 10
  const DefaultSortField: string := "upvotes"

  /** `Number(x) || fallback`: an absent value or zero gives the fallback; any other number, negative ones included, is kept. */
  function NumberOr(x: Option<int>, fallback: int): (r: int)
    ensures x.Some? && x.value != 0 ==> r == x.value
    ensures x.None? || x.value == 0 ==> r == fallback
    ensures fallback != 0 ==> r != 0
  {
    if x.Some? && x.value != 0 then x.value else fallback
  }

  /** The page number: 1 unless a nonzero page is given. */
  function PageOf(q: ListQuery): (r: int)
    ensures r != 0
    ensures q.page.Some? && q.page.value != 0 ==> r == q.page.value
    ensures q.page.None? || q.page.value == 0 ==> r == 1
  {
    NumberOr(q.page, DefaultPage)
  }

  /** The page size: 10 unless a nonzero limit is given; never zero, so the page count is defined. */
  function LimitOf(q: ListQuery): (r: int)
    ensures r != 0
    ensures q.limit.Some? && q.limit.value != 0 ==> r == q.limit.value
    ensures q.limit.None? || q.limit.value == 0 ==> r == 10
  {
    NumberOr(q.limit, DefaultLimit)
  }

  /**
   * `(page - 1) * limit`: the number of documents on the pages before `page`.
   * It is negative exactly for a page below 1 with a positive limit or a page
   * above 1 with a negative limit; the database refuses such a skip.
   */
  function Skip(page: int, limit: int): (r: int)
    ensures page == 1 ==> r == 0
    ensures page >= 1 && limit > 0 ==> r >= 0
    ensures r < 0 <==> (page < 1 && limit > 0) || (page > 1 && limit < 0)
  {
    var r := (page - 1) * limit;
    MulSign(page - 1, limit);
    r
  }

  /** The sign of a product with a positive factor is the sign of the other factor; a negative factor flips it. */
  lemma MulSign(a: int, b: int)
    ensures b > 0 && a >= 0 ==> a * b >= 0
    ensures b > 0 && a < 0 ==> a * b < 0
    ensures b < 0 && a > 0 ==> a * b < 0
    ensures b < 0 && a <= 0 ==> a * b >= 0
  {
  }

  /** `Math.ceil(n / d)` on integers: the least integer not below the quotient. */
  function CeilDiv(n: nat, d: int): (r: int)
    requires d != 0
    ensures d > 0 ==> (r - 1) * d < n <= r * d
    ensures d < 0 ==> r * d <= n < (r - 1) * d
  {
    if d > 0 then
      var r := (n + d - 1) / d;
      DivBounds(n + d - 1, d);
      assert (r - 1) * d == r * d - d;
      r
    else
      var r := -(n / -d);
      DivBounds(n, -d);
      assert r * d == (n / -d) * -d;
      assert (r - 1) * d == (n / -d) * -d - d;
      r
  }

  /** Euclidean division bounds the quotient times the divisor. */
  lemma DivBounds(n: int, d: int)
    requires d > 0
    ensures (n / d) * d <= n < (n / d) * d + d
  {
  }

  /** `query.sortBy || 'upvotes'`, and ascending only for `order === 'asc'`. */
  function SortOf(q: ListQuery): (r: SortSpec)
    ensures r.direction == 1 || r.direction == -1
    ensures r.direction == 1 <==> q.order == Some("asc")
    ensures q.sortBy.Some? && q.sortBy.value != [] ==> r.field == q.sortBy.value
    ensures q.sortBy.None? || q.sortBy.value == [] ==> r.field == DefaultSortField
  {
    var field := if q.sortBy.Some? && q.sortBy.value != [] then q.sortBy.value else DefaultSortField;
    SortSpec(field, if q.order == Some("asc") then 1 else -1)
  }

  /** The filter built from `search` (when non-empty) and `filter`. */
  function FilterOf(q: ListQuery): (f: Filter)
    ensures f.textPattern.Some? <==> q.search.Some? && q.search.value != []
    ensures f.textPattern.Some? ==> f.textPattern == q.search
    ensures f.positiveCounter == Some(Upvote) <==> q.filter == Some("voted")
    ensures f.positiveCounter == Some(Downvote) <==> q.filter == Some("not_voted")
  {
    var pattern := if q.search.Some? && q.search.value != [] then q.search else None;
    var positive :=
      if q.filter == Some("voted") then Some(Upvote)
      else if q.filter == Some("not_voted") then Some(Downvote)
      else None;
    Filter(pattern, positive)
  }

  /**
   * Whether a quote satisfies a filter; `textMatches(pattern, text)` stands for
   * the database's case-insensitive regular-expression match.
   */
  predicate Matches(f: Filter, quote: Quote, textMatches: (string, string) -> bool)
  {
    && (f.textPattern.Some? ==> textMatches(f.textPattern.value, quote.text))
    && (f.positiveCounter.Some? ==> quote.Counter(f.positiveCounter.value) > 0)
  }

  /**
   * What the built filter selects: 'voted' keeps the quotes with some upvote and
   * 'not_voted' those with some downvote (by anyone; the caller's own votes play
   * no part), a non-empty search keeps the quotes whose text matches it, and any
   * other filter value selects everything.
   */
  lemma FilterSelects(q: ListQuery, quote: Quote, textMatches: (string, string) -> bool)
    ensures Matches(FilterOf(q), quote, textMatches) <==>
      && (q.search.Some? && q.search.value != [] ==> textMatches(q.search.value, quote.text))
      && (q.filter == Some("voted") ==> quote.upvotes > 0)
      && (q.filter == Some("not_voted") ==> quote.downvotes > 0)
  {
  }

  /**
   * With a positive limit the pages 1..totalPages lay out all `total` matches:
   * the k-th match falls on exactly one of them, and the last one is not empty.
   */
  lemma PagesCoverAll(total: nat, limit: int, k: nat)
    requires limit > 0 && k < total
    ensures var p := k / limit + 1;
      && 1 <= p <= CeilDiv(total, limit)
      && Skip(p, limit) <= k < Skip(p, limit) + limit
      && Skip(CeilDiv(total, limit), limit) < total
  {
    var p := k / limit + 1;
    DivBounds(k, limit);
    var n := CeilDiv(total, limit);
    if n < p {
      MulMonotone(n, p - 1, limit);
    }
  }

  /** Multiplying by a positive factor keeps the order. */
  lemma MulMonotone(a: int, b: int, c: int)
    requires a <= b && c > 0
    ensures a * c <= b * c
  {
  }

  /** The parameters and counts `findAll` returns, for `total` matching quotes. */
  function ListingOf(q: ListQuery, total: nat): (r: Listing)
    ensures r.page == PageOf(q) && r.limit == LimitOf(q)
    ensures r.sort == SortOf(q) && r.filter == FilterOf(q)
    ensures r.limit != 0 && r.page != 0
    ensures r.skip == (r.page - 1) * r.limit
    ensures r.total == total
    ensures r.limit > 0 ==> (r.totalPages - 1) * r.limit < total <= r.totalPages * r.limit
    ensures r.limit < 0 ==> r.totalPages * r.limit <= total < (r.totalPages - 1) * r.limit
  {
    var page := PageOf(q);
    var limit := LimitOf(q);
    Listing(page, limit, Skip(page, limit), SortOf(q), FilterOf(q), total, CeilDiv(total, limit))
  }
}
