/**
 * `paginate` (its find-query branch) and `getPaginationLinks`: offset
 * arithmetic, page metadata and navigation links over a collection read in its
 * natural order.
 */
module Pagination {
  import opened Wrappers
  import opened Strings

  /** `IPaginationDto`: `skip` is optional. */
  datatype PaginationDto = PaginationDto(page: int, limit: int, skip: Option<int>)

  datatype Meta = Meta(totalItems: nat, itemCount: nat, itemsPerPage: int, totalPages: nat, currentPage: int)

  datatype Links = Links(first: string, previous: string, next: string, last: string)

  /** `PaginatedResult<T>`; `links` is None where the code returns `undefined`. */
  datatype Page<T> = Page(items: seq<T>, meta: Meta, links: Option<Links>)

  function Min(a: int, b: int): int
  {
    if a <= b then a else b
  }

  /** `paginationDto.skip || (page - 1) * limit`: a missing or zero `skip` is computed from the page. */
  function Skip(dto: PaginationDto): int
  {
    if dto.skip.Some? && dto.skip.value != 0 then dto.skip.value else (dto.page - 1) * dto.limit
  }

  /**
   * What the query layer needs: a positive limit (MongoDB reads `limit(0)` as
   * "no limit") and a non-negative offset (a negative `skip` is a MongoDB error).
   */
  predicate Pageable(dto: PaginationDto)
  {
    dto.limit > 0 && Skip(dto) >= 0
  }

  /** `Math.ceil(totalItems / limit)`: the fewest pages of `limit` items that hold them all. */
  function TotalPages(totalItems: nat, limit: int): (pages: nat)
    requires limit > 0
    ensures totalItems <= pages * limit
    ensures pages == 0 || (pages - 1) * limit < totalItems
    ensures pages == 0 <==> totalItems == 0
  {
    var pages := (totalItems + limit - 1) / limit;
    var rest := (totalItems + limit - 1) % limit;
    assert totalItems + limit - 1 == pages * limit + rest;
    assert (pages - 1) * limit == pages * limit - limit;
    pages
  }

  /** `.skip(skip).limit(limit)` on the query result. */
  function Items<T>(all: seq<T>, skip: nat, limit: nat): (items: seq<T>)
    ensures |items| == if skip >= |all| then 0 else Min(limit, |all| - skip)
    ensures forall i :: 0 <= i < |items| ==> items[i] == all[skip + i]
  {
    if skip >= |all| then [] else all[skip..][..Min(limit, |all| - skip)]
  }

  /** `${link}?page=${page}&limit=${limit}` */
  function PageLink(link: string, page: int, limit: int): (s: string)
    ensures s != ""
  {
    link + "?page=" + IntToString(page) + "&limit=" + IntToString(limit)
  }

  /** `getPaginationLinks`: no links without a base link; `previous` and `next` are "" at the ends. */
  function GetPaginationLinks(link: string, dto: PaginationDto, totalItems: nat): (r: Option<Links>)
    requires dto.limit > 0
    ensures r.None? <==> link == ""
    ensures r.Some? ==>
      && r.value.first == PageLink(link, 1, dto.limit)
      && r.value.last == PageLink(link, TotalPages(totalItems, dto.limit), dto.limit)
      && (r.value.previous == "" <==> dto.page <= 1)
      && (dto.page > 1 ==> r.value.previous == PageLink(link, dto.page - 1, dto.limit))
      && (r.value.next == "" <==> dto.page >= TotalPages(totalItems, dto.limit))
      && (dto.page < TotalPages(totalItems, dto.limit) ==> r.value.next == PageLink(link, dto.page + 1, dto.limit))
  {
    if link == "" then None
    else
      var totalPages := TotalPages(totalItems, dto.limit);
      Some(Links(
        PageLink(link, 1, dto.limit),
        if dto.page > 1 then PageLink(link, dto.page - 1, dto.limit) else "",
        if dto.page < totalPages then PageLink(link, dto.page + 1, dto.limit) else "",
        PageLink(link, totalPages, dto.limit)))
  }

  /** `paginate` over the documents a find query returns, in their natural order. */
  function Paginate<T>(dto: PaginationDto, all: seq<T>, link: string): (p: Page<T>)
    requires Pageable(dto)
    ensures p.meta == Meta(|all|, |p.items|, dto.limit, TotalPages(|all|, dto.limit), dto.page)
    ensures |p.items| == if Skip(dto) >= |all| then 0 else Min(dto.limit, |all| - Skip(dto))
    ensures forall i :: 0 <= i < |p.items| ==> p.items[i] == all[Skip(dto) + i]
    ensures p.links == GetPaginationLinks(link, dto, |all|)
  {
    var items := Items(all, Skip(dto), dto.limit);
    Page(items, Meta(|all|, |items|, dto.limit, TotalPages(|all|, dto.limit), dto.page),
         GetPaginationLinks(link, dto, |all|))
  }

  /** Links to different pages differ, so `previous`, `next`, `first` and `last` name their pages. */
  lemma PageLinkInjective(link: string, p: int, q: int, limit: int)
    requires PageLink(link, p, limit) == PageLink(link, q, limit)
    ensures p == q
  {
    CancelAffixes(link + "?page=", IntToString(p), IntToString(q), "&limit=", IntToString(limit));
    IntToStringInjective(p, q);
  }

  /** The page a client requests with only `page` and `limit`. */
  function PageRequest(page: int, limit: int): PaginationDto
  {
    PaginationDto(page, limit, None)
  }

  /** The items of pages 1 to `n`, in order. */
  function FirstPages<T>(all: seq<T>, limit: int, n: nat): seq<T>
    requires limit > 0
  {
    if n == 0 then [] else FirstPages(all, limit, n - 1) + Paginate(PageRequest(n, limit), all, "").items
  }

  lemma PageOffsetStep(n: nat, limit: int)
    requires n > 0
    ensures n * limit == (n - 1) * limit + limit
  {
  }

  /** Page `n`'s items are the slice of the collection between its offset and the next page's. */
  lemma PageItemsAreSlice<T>(all: seq<T>, limit: int, n: nat, start: int)
    requires limit > 0 && n > 0 && start == (n - 1) * limit
    ensures start >= 0
    ensures Paginate(PageRequest(n, limit), all, "").items ==
              if start >= |all| then [] else all[start..Min(start + limit, |all|)]
  {
    assert Skip(PageRequest(n, limit)) == start;
  }

  lemma {:induction false} FirstPagesArePrefix<T>(all: seq<T>, limit: int, n: nat)
    requires limit > 0
    ensures FirstPages(all, limit, n) == all[..Min(n * limit, |all|)]
  {
    if n > 0 {
      FirstPagesArePrefix(all, limit, n - 1);
      var start := (n - 1) * limit;
      PageOffsetStep(n, limit);
      PageItemsAreSlice(all, limit, n, start);
      var before := all[..Min(start, |all|)];
      var items := Paginate(PageRequest(n, limit), all, "").items;
      assert FirstPages(all, limit, n) == before + items;
      if start < |all| {
        assert before + all[start..Min(start + limit, |all|)] == all[..Min(start + limit, |all|)];
      }
    }
  }

  /** Walking pages 1 to `totalPages` with no explicit skip visits every item exactly once, in order. */
  lemma PagesCoverCollection<T>(all: seq<T>, limit: int)
    requires limit > 0
    ensures FirstPages(all, limit, TotalPages(|all|, limit)) == all
  {
    FirstPagesArePrefix(all, limit, TotalPages(|all|, limit));
  }
}
