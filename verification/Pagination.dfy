/** `paginate`: one page of a query result, and the walk along `nextPage`. */
module Pagination {
  import opened Collections
  import opened Wrappers

  datatype Page<T> = Page(
    data: seq<T>,
    page: int,
    perPage: int,
    total: nat,
    totalPages: int,
    hasMore: bool,
    hasPrevious: bool,
    nextPage: Option<int>,
    previousPage: Option<int>
  )

  /** The class defaults: `perPage` and `maxPerPage`. */
  datatype Limits = Limits(perPage: int, maxPerPage: int)

  ghost predicate ValidLimits(limits: Limits) {
    limits.perPage >= 1 && limits.maxPerPage >= 1
  }

  function Min(a: int, b: int): int {
    if a < b then a else b
  }

  /** `Math.min(perPage || this.perPage, this.maxPerPage)`; a missing or zero size is the default. */
  function Effective(requested: Option<int>, limits: Limits): int {
    Min(if requested == None || requested == Some(0) then limits.perPage else requested.value, limits.maxPerPage)
  }

  /** OFFSET and LIMIT: a zero leaves the clause out, a negative number is refused by the database. */
  function Select<T>(all: seq<T>, offset: int, limit: int): Result<seq<T>, string> {
    if offset < 0 || limit < 0 then Throws("must not be negative") else
    var from := if offset <= |all| then offset else |all|;
    var to := if limit == 0 || from + limit > |all| then |all| else from + limit;
    Ok(all[from..to])
  }

  function Paginate<T>(all: seq<T>, page: int, requested: Option<int>, limits: Limits): Result<Page<T>, string>
    requires ValidLimits(limits)
  {
    var perPage := Effective(requested, limits);
    var total := |all|;
    match Select(all, (page - 1) * perPage, perPage)
    case Throws(e) => Throws(e)
    case Ok(data) =>
      if perPage < 1 then Throws("must not be negative") else
      Ok(Page(data, page, perPage, total, CeilDiv(total, perPage),
              page * perPage < total, page > 1,
              if page * perPage < total then Some(page + 1) else None,
              if page > 1 then Some(page - 1) else None))
  }

  lemma SignOfProduct(a: int, b: int)
    requires b >= 1
    ensures a * b >= 0 <==> a >= 0
    ensures a >= 0 ==> a * b >= a
  {
    if a < 0 {
      assert a * b <= -1 * b;
    }
  }

  /** A page is served exactly for page numbers from 1 and sizes that are not negative. */
  lemma ServedIff<T>(all: seq<T>, page: int, requested: Option<int>, limits: Limits)
    requires ValidLimits(limits)
    ensures Paginate(all, page, requested, limits).Ok?
       <==> page >= 1 && (requested == None || requested.value >= 0)
  {
    var perPage := Effective(requested, limits);
    assert perPage >= 1 <==> requested == None || requested.value >= 0;
    if perPage >= 1 {
      SignOfProduct(page - 1, perPage);
    }
  }

  lemma CeilDivBound(total: nat, perPage: int, page: int)
    requires perPage >= 1
    ensures page * perPage < total <==> page < CeilDiv(total, perPage)
  {
    var q := CeilDiv(total, perPage);
    var r := (total + perPage - 1) % perPage;
    assert total + perPage - 1 == q * perPage + r;
    if page < q {
      assert page * perPage <= (q - 1) * perPage;
    } else {
      assert page * perPage >= q * perPage;
    }
  }

  /** The page holds the rows that its number and size name, and says what it was asked for. */
  lemma PageShows<T>(all: seq<T>, page: int, requested: Option<int>, limits: Limits)
    requires ValidLimits(limits) && Paginate(all, page, requested, limits).Ok?
    ensures var p := Paginate(all, page, requested, limits).value;
            var wanted := if requested == None || requested == Some(0) then limits.perPage else requested.value;
            var from := (page - 1) * p.perPage;
            && p.perPage == (if wanted <= limits.maxPerPage then wanted else limits.maxPerPage)
            && p.page == page && p.total == |all| && p.previousPage == (if page > 1 then Some(page - 1) else None)
            && |p.data| == (if |all| <= from then 0 else if |all| <= from + p.perPage then |all| - from else p.perPage)
            && forall i | 0 <= i < |p.data| :: 0 <= from + i < |all| && p.data[i] == all[from + i]
  {
    ServedIff(all, page, requested, limits);
    SignOfProduct(page - 1, Effective(requested, limits));
  }

  /** The flags say what they promise. */
  lemma FlagsAgree<T>(all: seq<T>, page: int, requested: Option<int>, limits: Limits)
    requires ValidLimits(limits) && Paginate(all, page, requested, limits).Ok?
    ensures var p := Paginate(all, page, requested, limits).value;
            && p.hasMore == (page < p.totalPages) && p.hasMore == p.nextPage.Some?
            && p.hasPrevious == p.previousPage.Some?
            && (p.hasMore ==> |p.data| == p.perPage)
            && (1 <= page <= p.totalPages <==> p.data != [])
  {
    var p := Paginate(all, page, requested, limits).value;
    ServedIff(all, page, requested, limits);
    CeilDivBound(|all|, p.perPage, page);
    CeilDivBound(|all|, p.perPage, page - 1);
    assert page * p.perPage == (page - 1) * p.perPage + p.perPage;
    SignOfProduct(page - 1, p.perPage);
  }

  // ---------- Following nextPage ----------

  /** The data of every page from `page` on, as long as there is a next one. */
  function Walk<T>(all: seq<T>, page: int, requested: Option<int>, limits: Limits): seq<seq<T>>
    requires ValidLimits(limits) && Paginate(all, page, requested, limits).Ok?
    decreases |all| - page
  {
    var p := Paginate(all, page, requested, limits).value;
    if p.nextPage == None then [p.data] else
    ServedIff(all, page, requested, limits);
    ServedIff(all, page + 1, requested, limits);
    SignOfProduct(page, p.perPage);
    [p.data] + Walk(all, p.nextPage.value, requested, limits)
  }

  /** One page, in the linear form that the induction below works with. */
  lemma PageStep<T>(all: seq<T>, page: int, requested: Option<int>, limits: Limits) returns (from: nat, perPage: nat)
    requires ValidLimits(limits) && Paginate(all, page, requested, limits).Ok?
    requires (page - 1) * Effective(requested, limits) <= |all|
    ensures from == (page - 1) * Effective(requested, limits) <= |all| && perPage == Effective(requested, limits) >= 1
    ensures page * perPage == from + perPage
    ensures var p := Paginate(all, page, requested, limits).value;
            if from + perPage < |all|
            then p.data == all[from..from + perPage] && p.nextPage == Some(page + 1)
                 && Paginate(all, page + 1, requested, limits).Ok? && page < CeilDiv(|all|, perPage) && page < |all|
            else p.data == all[from..] && p.nextPage == None && page >= CeilDiv(|all|, perPage)
  {
    ServedIff(all, page, requested, limits);
    ServedIff(all, page + 1, requested, limits);
    perPage := Effective(requested, limits);
    SignOfProduct(page - 1, perPage);
    SignOfProduct(page, perPage);
    CeilDivBound(|all|, perPage, page);
    from := (page - 1) * perPage;
    assert page * perPage == from + perPage;
  }

  lemma SplitFrom<T>(all: seq<T>, from: nat, n: nat)
    requires from + n <= |all|
    ensures all[from..] == all[from..from + n] + all[from + n..]
  {
  }

  lemma ConcatFirst<T>(first: seq<T>, rest: seq<seq<T>>)
    ensures Concat([first] + rest) == first + Concat(rest)
  {
    assert ([first] + rest)[1..] == rest;
  }

  lemma {:induction false} WalkCovers<T>(all: seq<T>, page: int, requested: Option<int>, limits: Limits, from: nat)
    requires ValidLimits(limits) && Paginate(all, page, requested, limits).Ok?
    requires from == (page - 1) * Effective(requested, limits) <= |all|
    ensures Concat(Walk(all, page, requested, limits)) == all[from..]
    decreases |all| - page
  {
    var from', perPage := PageStep(all, page, requested, limits);
    var p := Paginate(all, page, requested, limits).value;
    if from + perPage < |all| {
      WalkCovers(all, page + 1, requested, limits, from + perPage);
      ConcatFirst(p.data, Walk(all, page + 1, requested, limits));
      SplitFrom(all, from, perPage);
    } else {
      assert Concat([p.data]) == p.data + Concat([]) == p.data;
    }
  }

  lemma {:induction false} WalkLength<T>(all: seq<T>, page: int, requested: Option<int>, limits: Limits, last: int)
    requires ValidLimits(limits) && Paginate(all, page, requested, limits).Ok?
    requires (page - 1) * Effective(requested, limits) <= |all|
    requires Effective(requested, limits) >= 1 && last == CeilDiv(|all|, Effective(requested, limits))
    ensures |Walk(all, page, requested, limits)| == if page < last then last - page + 1 else 1
    decreases |all| - page
  {
    var from, perPage := PageStep(all, page, requested, limits);
    if from + perPage < |all| {
      WalkLength(all, page + 1, requested, limits, last);
    }
  }

  /**
   * Following `nextPage` from page 1 ends, after `totalPages` pages when there is
   * anything to show, and the pages put together are the result: no gap and no repeat.
   */
  lemma PagesPartitionTheResult<T>(all: seq<T>, requested: Option<int>, limits: Limits)
    requires ValidLimits(limits) && (requested == None || requested.value >= 0)
    ensures Paginate(all, 1, requested, limits).Ok?
    ensures Concat(Walk(all, 1, requested, limits)) == all
    ensures |Walk(all, 1, requested, limits)|
         == if all == [] then 1 else Paginate(all, 1, requested, limits).value.totalPages
  {
    ServedIff(all, 1, requested, limits);
    WalkCovers(all, 1, requested, limits, 0);
    WalkLength(all, 1, requested, limits, CeilDiv(|all|, Effective(requested, limits)));
    var p := Paginate(all, 1, requested, limits).value;
    CeilDivBound(|all|, p.perPage, 0);
    CeilDivBound(|all|, p.perPage, 1);
  }
}
