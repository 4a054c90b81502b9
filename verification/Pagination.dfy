/** Offset pagination: page arithmetic, and the pages as a partition of the data. */
module Pagination {
  import opened Wrappers

  /** Go's integer division, which truncates toward zero. */
  function Div(a: int, b: int): int
    requires b > 0
  {
    if a >= 0 then a / b else -((-a) / b)
  }

  /** The remainder is smaller than the divisor and has the sign of the dividend. */
  lemma DivTruncates(a: int, b: int)
    requires b > 0
    ensures var rest := a - Div(a, b) * b; -b < rest < b && (a >= 0 ==> rest >= 0) && (a <= 0 ==> rest <= 0)
  {
    if a >= 0 {
      assert a == a / b * b + a % b;
    } else {
      assert -a == (-a) / b * b + (-a) % b;
    }
  }

  datatype OffsetResult = OffsetResult(totalData: Option<int>, totalPage: Option<int>, currentPage: int, perPage: int)
  {
    predicate HasNext() {
      totalPage.Some? && currentPage < totalPage.value
    }

    function NextPage(): int {
      currentPage + 1
    }
  }

  datatype CursorResult = CursorResult(totalData: Option<int>, next: string, prev: string)

  datatype PageResult = Offset(offset: OffsetResult) | Cursor(cursor: CursorResult)

  function TotalPages(total: int, perPage: int): int
    requires perPage > 0
  {
    Div(total + perPage - 1, perPage)
  }

  class Pagination {
    var page: int
    var perPage: int
    var result: Option<PageResult>

    constructor (page: int, perPage: int)
      ensures this.page == page && this.perPage == perPage && result == None
    {
      this.page, this.perPage, result := page, perPage, None;
    }

    method GetOffset() returns (offset: int)
      modifies this`page, this`perPage
      ensures old(page) >= 1 ==> page == old(page)
      ensures old(page) <= 0 ==> page == 1
      ensures old(perPage) >= 1 ==> perPage == old(perPage)
      ensures old(perPage) <= 0 ==> perPage == 10
      ensures offset == (page - 1) * perPage >= 0
    {
      if page <= 0 {
        page := 1;
      }
      if perPage <= 0 {
        perPage := 10;
      }
      offset := (page - 1) * perPage;
    }

    method BuildResponseOffset(totalData: Option<int>)
      modifies this
      ensures old(page) >= 1 ==> page == old(page)
      ensures old(page) <= 0 ==> page == 1
      ensures old(perPage) >= 1 ==> perPage == old(perPage)
      ensures old(perPage) <= 0 ==> perPage == 10
      ensures result == Some(Offset(OffsetResult(
        totalData, if totalData.None? then None else Some(TotalPages(totalData.value, perPage)), page, perPage)))
      ensures totalData.Some? && totalData.value >= 0 ==>
        var pages := TotalPages(totalData.value, perPage);
        pages >= 0 && (pages - 1) * perPage < totalData.value <= pages * perPage
    {
      if page <= 0 {
        page := 1;
      }
      if perPage <= 0 {
        perPage := 10;
      }
      if totalData.None? {
        result := Some(Offset(OffsetResult(None, None, page, perPage)));
        return;
      }
      if totalData.value >= 0 {
        CeilingDivision(totalData.value, perPage);
      }
      var totalPage := Div(totalData.value + perPage - 1, perPage);
      result := Some(Offset(OffsetResult(totalData, Some(totalPage), page, perPage)));
    }

    method BuildResponseCursor(next: string, prev: string, totalData: Option<int>)
      modifies this`result
      ensures result == Some(Cursor(CursorResult(totalData, next, prev)))
    {
      result := Some(Cursor(CursorResult(totalData, next, prev)));
    }
  }

  // ---------------------------------------------------------------- the partition

  /** Item i is on the page: at or after its offset and before the next one. */
  predicate OnPage(i: int, page: int, perPage: int) {
    (page - 1) * perPage <= i < page * perPage
  }

  lemma CeilingDivision(total: nat, perPage: int)
    requires perPage > 0
    ensures var pages := TotalPages(total, perPage);
      pages >= 0 && (pages - 1) * perPage < total <= pages * perPage
  {
    var n := total + perPage - 1;
    assert n == n / perPage * perPage + n % perPage;
    assert (n / perPage - 1) * perPage == n / perPage * perPage - perPage;
  }

  /** Every item is on exactly one of the pages 1..TotalPage. */
  lemma ItemOnOnePage(total: nat, perPage: int, i: nat)
    requires perPage > 0 && i < total
    ensures 1 <= i / perPage + 1 <= TotalPages(total, perPage)
    ensures forall page :: OnPage(i, page, perPage) <==> page == i / perPage + 1
  {
    CeilingDivision(total, perPage);
    var q := i / perPage;
    assert i == q * perPage + i % perPage;
    assert (q + 1) * perPage == q * perPage + perPage;
    if q + 1 > TotalPages(total, perPage) {
      OneMore(TotalPages(total, perPage), q, perPage);
    }
    forall page ensures OnPage(i, page, perPage) <==> page == q + 1 {
      if page <= q {
        OneMore(page, q, perPage);
      } else if page > q + 1 {
        OneMore(q + 1, page - 1, perPage);
      }
    }
  }

  lemma OneMore(a: int, b: int, perPage: int)
    requires a <= b && perPage > 0
    ensures a * perPage <= b * perPage
  {
  }

  /** What a query with this offset and limit returns. */
  function Slice<T>(data: seq<T>, offset: int, limit: int): seq<T>
    requires offset >= 0 && limit >= 0
  {
    if offset >= |data| then []
    else if offset + limit > |data| then data[offset..]
    else data[offset..offset + limit]
  }

  /** The response for a page of the data. */
  function Response(total: nat, page: int, perPage: int): OffsetResult
    requires perPage > 0
  {
    OffsetResult(Some(total), Some(TotalPages(total, perPage)), page, perPage)
  }

  /** All items read by following NextPage while HasNext, from this page on. */
  function Follow<T>(data: seq<T>, page: int, perPage: int): seq<T>
    requires page >= 1 && perPage >= 1
    decreases TotalPages(|data|, perPage) - page
  {
    var r := Response(|data|, page, perPage);
    SlicePage(data, page, perPage) + if r.HasNext() then Follow(data, r.NextPage(), perPage) else []
  }

  function SlicePage<T>(data: seq<T>, page: int, perPage: int): seq<T>
    requires page >= 1 && perPage >= 1
  {
    OneMore(0, page - 1, perPage);
    Slice(data, (page - 1) * perPage, perPage)
  }

  lemma {:induction false} FollowFrom<T>(data: seq<T>, page: int, perPage: int)
    requires page >= 1 && perPage >= 1 && 0 <= (page - 1) * perPage <= |data|
    ensures Follow(data, page, perPage) == data[(page - 1) * perPage..]
    decreases TotalPages(|data|, perPage) - page
  {
    CeilingDivision(|data|, perPage);
    var pages := TotalPages(|data|, perPage);
    var offset := (page - 1) * perPage;
    assert page * perPage == offset + perPage;
    if page < pages {
      OneMore(page, pages - 1, perPage);
      FollowFrom(data, page + 1, perPage);
      assert data[offset..] == data[offset..offset + perPage] + data[offset + perPage..];
    } else {
      OneMore(pages, page, perPage);
    }
  }

  /** Following NextPage while HasNext from page 1 terminates and reads the whole data set, in order, once. */
  lemma {:induction false} PagesReadEverything<T>(data: seq<T>, perPage: int)
    requires perPage >= 1
    ensures Follow(data, 1, perPage) == data
  {
    FollowFrom(data, 1, perPage);
  }

  function Size(perPage: int): (size: int)
    ensures size >= 1 && (perPage >= 1 ==> size == perPage) && (perPage <= 0 ==> size == 10)
  {
    if perPage >= 1 then perPage else 10
  }

  /** What a caller reads of a page, at the offset that GetOffset returns, and the response it gets. */
  method ReadPage<T>(data: seq<T>, page: int, perPage: int) returns (items: seq<T>, response: OffsetResult)
    requires page >= 1
    ensures items == SlicePage(data, page, Size(perPage))
    ensures response.HasNext() <==> page < TotalPages(|data|, Size(perPage))
    ensures response.NextPage() == page + 1
  {
    var p := new Pagination(page, perPage);
    var offset := p.GetOffset();
    items := Slice(data, offset, p.perPage);
    p.BuildResponseOffset(Some(|data|));
    response := p.result.value.offset;
  }

  /** A caller that reads page 1, then follows NextPage while HasNext, with any page size, reads the whole data
      set, in order and once. */
  method ReadAll<T>(data: seq<T>, perPage: int) returns (all: seq<T>)
    ensures all == data
  {
    PagesReadEverything(data, Size(perPage));
    all := [];
    var page := 1;
    while true
      invariant page >= 1 && all + Follow(data, page, Size(perPage)) == data
      decreases TotalPages(|data|, Size(perPage)) - page
    {
      FollowStep(data, page, Size(perPage), all);
      var items, response := ReadPage(data, page, perPage);
      all := all + items;
      if !response.HasNext() {
        return;
      }
      page := response.NextPage();
    }
  }

  lemma {:induction false} FollowStep<T>(data: seq<T>, page: int, perPage: int, all: seq<T>)
    requires page >= 1 && perPage >= 1
    ensures var rest := if page < TotalPages(|data|, perPage) then Follow(data, page + 1, perPage) else [];
      all + Follow(data, page, perPage) == all + SlicePage(data, page, perPage) + rest
  {
  }
}
