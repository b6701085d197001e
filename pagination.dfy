/**
 * Pagination of a curseforge list page (mpm/spiders/curseforge.py, the
 * helpers _get_pagination_range, _get_pagination_base and _pagination_iter).
 * The input is the list of paginator hrefs the page's footer holds, in
 * document order.
 */
module Pagination {
  import opened Wrappers
  import opened Builtins
  import opened UrlParse

  /** The "page" parameter of a paginator href, as parse_qs reads it: the first value given. */
  function PageValue(href: string): Option<string> {
    var query := ParseQs(UrlSplit(href).query);
    if "page" in query then Some(query["page"][0]) else None
  }

  /**
   * An href has a page value exactly when one of its query pairs is a
   * non-empty "page" pair, and then the value is that of the first such
   * pair: later "page" pairs are ignored.
   */
  lemma PageValueIsFirstPair(href: string)
    ensures var pairs := QueryPairs(UrlSplit(href).query);
            (PageValue(href).None? <==> forall i :: 0 <= i < |pairs| ==> pairs[i].0 != "page") &&
            (PageValue(href).Some? ==>
               exists i :: 0 <= i < |pairs| && pairs[i] == ("page", PageValue(href).value) &&
                           forall j :: 0 <= j < i ==> pairs[j].0 != "page")
  {
    var pairs := QueryPairs(UrlSplit(href).query);
    CollectIsValuesOf(pairs, "page");
    FirstValueOf(pairs, "page");
  }

  /** What one paginator href contributes to the range: nothing, int()'s error, or a page number. */
  datatype PageParam = NoPage | BadPage(text: string) | GoodPage(number: int)

  /** int() applied to the page value of an href, if it has one. */
  function Classify(v: Option<string>): PageParam {
    match v
    case None => NoPage
    case Some(text) =>
      match ParseInt(text)
      case None => BadPage(text)
      case Some(n) => GoodPage(n)
  }

  /** The page parameters of the paginator hrefs, in document order. */
  function PageParams(hrefs: seq<string>): (ps: seq<PageParam>)
    ensures |ps| == |hrefs| && forall i :: 0 <= i < |hrefs| ==> ps[i] == Classify(PageValue(hrefs[i]))
  {
    seq(|hrefs|, i requires 0 <= i < |hrefs| => Classify(PageValue(hrefs[i])))
  }

  /**
   * What each href contributes, in terms of its query: nothing when no
   * query pair is named "page"; otherwise int() of the value of the first
   * "page" pair decides between a page number and int()'s error.
   */
  lemma PageParamOf(hrefs: seq<string>, i: nat)
    requires i < |hrefs|
    ensures var pairs := QueryPairs(UrlSplit(hrefs[i]).query);
            var p := PageParams(hrefs)[i];
            (p == NoPage <==> forall j :: 0 <= j < |pairs| ==> pairs[j].0 != "page") &&
            (p != NoPage ==>
               exists j :: 0 <= j < |pairs| && pairs[j].0 == "page" &&
                           (forall k :: 0 <= k < j ==> pairs[k].0 != "page") &&
                           p == (if ParseInt(pairs[j].1).Some? then GoodPage(ParseInt(pairs[j].1).value) else BadPage(pairs[j].1)))
  {
    PageValueIsFirstPair(hrefs[i]);
  }

  /**
   * What the loop of _get_pagination_range collects: hrefs without a page
   * parameter are skipped, and the first page value int() rejects ends the
   * computation with that error.
   */
  function Collected(ps: seq<PageParam>): Result<seq<int>> {
    if ps == [] then Ok([])
    else
      match Collected(ps[..|ps| - 1])
      case Err(e) => Err(e)
      case Ok(ns) =>
        match ps[|ps| - 1]
        case NoPage => Ok(ns)
        case BadPage(text) => Err(InvalidLiteral(text))
        case GoodPage(n) => Ok(ns + [n])
  }

  /** The page numbers collected from the hrefs, or int()'s error. */
  function PageNumbers(hrefs: seq<string>): Result<seq<int>> {
    Collected(PageParams(hrefs))
  }

  /** (min(page_numbers), max(page_numbers)) for the collected parameters, or the exception that stops it. */
  function RangeOf(ps: seq<PageParam>): Result<(int, int)> {
    match Collected(ps)
    case Err(e) => Err(e)
    case Ok(ns) => if ns == [] then Err(EmptySequence) else Ok((Min(ns), Max(ns)))
  }

  /** The range _get_pagination_range returns for the paginator hrefs. */
  function PageRange(hrefs: seq<string>): Result<(int, int)> {
    RangeOf(PageParams(hrefs))
  }

  /** _get_pagination_range */
  method GetPaginationRange(hrefs: seq<string>) returns (r: Result<(int, int)>)
    ensures r == PageRange(hrefs)
  {
    ghost var ps := PageParams(hrefs);
    var pageNumbers: seq<int> := [];
    for i := 0 to |hrefs|
      invariant Collected(ps[..i]) == Ok(pageNumbers)
    {
      CollectedStep(ps, i);
      var page := PageValue(hrefs[i]);
      assert ps[i] == Classify(page);
      if page.Some? {
        var n := ParseInt(page.value);
        if n.None? {
          CollectedErrorSticks(ps, i + 1);
          return Err(InvalidLiteral(page.value));
        }
        pageNumbers := pageNumbers + [n.value];
      }
    }
    assert ps[..|hrefs|] == ps;
    if pageNumbers == [] {
      return Err(EmptySequence);
    }
    var firstPage := Min(pageNumbers);
    var lastPage := Max(pageNumbers);
    return Ok((firstPage, lastPage));
  }

  /** One more parameter: skipped, an error, or one more number, unless an error came before. */
  lemma CollectedStep(ps: seq<PageParam>, i: nat)
    requires i < |ps|
    ensures Collected(ps[..i + 1]) ==
            match Collected(ps[..i])
            case Err(e) => Err(e)
            case Ok(ns) =>
              match ps[i]
              case NoPage => Ok(ns)
              case BadPage(text) => Err(InvalidLiteral(text))
              case GoodPage(n) => Ok(ns + [n])
  {
    assert ps[..i + 1][..i] == ps[..i];
  }

  /** Once a page value is rejected, the hrefs after it change nothing. */
  lemma {:induction false} CollectedErrorSticks(ps: seq<PageParam>, i: nat)
    requires i <= |ps| && Collected(ps[..i]).Err?
    ensures Collected(ps) == Collected(ps[..i])
    decreases |ps| - i
  {
    if i < |ps| {
      assert ps[..i + 1][..i] == ps[..i];
      CollectedErrorSticks(ps, i + 1);
    } else {
      assert ps[..i] == ps;
    }
  }

  /** The page numbers among the parameters, in order. */
  function Numbers(ps: seq<PageParam>): seq<int> {
    if ps == [] then []
    else
      var last := ps[|ps| - 1];
      Numbers(ps[..|ps| - 1]) + (if last.GoodPage? then [last.number] else [])
  }

  /** The collecting loop succeeds exactly when no page value is rejected by int(). */
  lemma {:induction false} CollectedOk(ps: seq<PageParam>)
    ensures Collected(ps).Ok? <==> forall i :: 0 <= i < |ps| ==> !ps[i].BadPage?
  {
    if ps != [] {
      var init := ps[..|ps| - 1];
      CollectedOk(init);
      assert forall i :: 0 <= i < |init| ==> init[i] == ps[i];
    }
  }

  /** ... and then it holds every page number, in href order. */
  lemma {:induction false} CollectedAreNumbers(ps: seq<PageParam>)
    requires Collected(ps).Ok?
    ensures Collected(ps).value == Numbers(ps)
  {
    if ps != [] {
      CollectedAreNumbers(ps[..|ps| - 1]);
    }
  }

  lemma {:induction false} NumbersMembers(ps: seq<PageParam>, n: int)
    ensures n in Numbers(ps) <==> exists i :: 0 <= i < |ps| && ps[i] == GoodPage(n)
  {
    if ps != [] {
      var init := ps[..|ps| - 1];
      NumbersMembers(init, n);
      assert forall i :: 0 <= i < |init| ==> init[i] == ps[i];
      if exists i :: 0 <= i < |ps| && ps[i] == GoodPage(n) {
        var i :| 0 <= i < |ps| && ps[i] == GoodPage(n);
        if i < |init| {
          assert init[i] == GoodPage(n);
        }
      }
    }
  }

  lemma {:induction false} NoNumbers(ps: seq<PageParam>)
    ensures Numbers(ps) == [] <==> forall i :: 0 <= i < |ps| ==> !ps[i].GoodPage?
  {
    if ps != [] {
      var init := ps[..|ps| - 1];
      NoNumbers(init);
      assert forall i :: 0 <= i < |init| ==> init[i] == ps[i];
    }
  }

  /**
   * The only exception the collecting loop raises is int()'s, and it names
   * the first rejected page value.
   */
  lemma {:induction false} CollectedErrorKind(ps: seq<PageParam>)
    ensures Collected(ps).Err? ==>
            exists i :: 0 <= i < |ps| && ps[i].BadPage? && Collected(ps).error == InvalidLiteral(ps[i].text) &&
                        forall j :: 0 <= j < i ==> !ps[j].BadPage?
  {
    if ps != [] {
      var init := ps[..|ps| - 1];
      CollectedErrorKind(init);
      CollectedOk(init);
      if Collected(init).Err? {
        var i :| 0 <= i < |init| && init[i].BadPage? && Collected(init).error == InvalidLiteral(init[i].text) &&
                 forall j :: 0 <= j < i ==> !init[j].BadPage?;
        assert ps[i] == init[i];
      } else {
        assert forall j :: 0 <= j < |init| ==> ps[j] == init[j];
      }
    }
  }

  /**
   * The range found: first <= last, both are page numbers of some href,
   * and every href's page number lies between them.
   */
  lemma RangeBounds(ps: seq<PageParam>)
    requires RangeOf(ps).Ok?
    ensures var (first, last) := RangeOf(ps).value;
            first <= last &&
            (exists i :: 0 <= i < |ps| && ps[i] == GoodPage(first)) &&
            (exists i :: 0 <= i < |ps| && ps[i] == GoodPage(last)) &&
            forall i :: 0 <= i < |ps| && ps[i].GoodPage? ==> first <= ps[i].number <= last
  {
    CollectedAreNumbers(ps);
    var ns := Collected(ps).value;
    NumbersMembers(ps, Min(ns));
    NumbersMembers(ps, Max(ns));
    forall i | 0 <= i < |ps| && ps[i].GoodPage?
      ensures Min(ns) <= ps[i].number <= Max(ns)
    {
      NumbersMembers(ps, ps[i].number);
    }
  }

  /** The range is never empty: min(page_numbers) <= max(page_numbers). */
  lemma RangeOrdered(ps: seq<PageParam>)
    requires RangeOf(ps).Ok?
    ensures RangeOf(ps).value.0 <= RangeOf(ps).value.1
  {
    var ns := Collected(ps).value;
    assert Min(ns) in ns;
  }

  /**
   * min() of an empty list: the range computation raises exactly when no
   * href carries a page parameter (the error is not softened to a single
   * page).
   */
  lemma PageRangeEmpty(hrefs: seq<string>)
    ensures PageRange(hrefs) == Err(EmptySequence) <==>
            forall i :: 0 <= i < |hrefs| ==> PageParams(hrefs)[i] == NoPage
  {
    var ps := PageParams(hrefs);
    CollectedOk(ps);
    CollectedErrorKind(ps);
    if Collected(ps).Ok? {
      CollectedAreNumbers(ps);
      NoNumbers(ps);
    }
  }

  /**
   * The range computation fails with int()'s error exactly when some href
   * has a page value that is not an integer literal; the error names the
   * first such value.
   */
  lemma PageRangeInvalid(hrefs: seq<string>)
    ensures var ps := PageParams(hrefs);
            (PageRange(hrefs).Err? && PageRange(hrefs).error.InvalidLiteral?) <==>
            exists i :: 0 <= i < |ps| && ps[i].BadPage?
    ensures var ps := PageParams(hrefs);
            PageRange(hrefs).Err? && PageRange(hrefs).error.InvalidLiteral? ==>
            exists i :: 0 <= i < |ps| && ps[i] == BadPage(PageRange(hrefs).error.text) &&
                        forall j :: 0 <= j < i ==> !ps[j].BadPage?
  {
    var ps := PageParams(hrefs);
    CollectedOk(ps);
    CollectedErrorKind(ps);
  }

  /** _get_pagination_base: the first paginator href, split; IndexError when there is none. */
  function PaginationBase(hrefs: seq<string>): (r: Result<SplitResult>)
    ensures r.Err? <==> hrefs == []
    ensures r.Err? ==> r.error == IndexOutOfRange
  {
    if hrefs == [] then Err(IndexOutOfRange) else Ok(UrlSplit(hrefs[0]))
  }

  /**
   * The IndexError of _get_pagination_base cannot surface through
   * _pagination_iter: whenever the range is found the footer has an href,
   * and with no href at all the range computation fails first with min()'s
   * error.
   */
  lemma BaseFollowsRange(hrefs: seq<string>)
    ensures PageRange(hrefs).Ok? ==> PaginationBase(hrefs).Ok?
    ensures PaginationBase(hrefs).Err? ==> PageRange(hrefs) == Err(EmptySequence)
  {
  }

  /** parse_qs(query), the dict _pagination_iter starts from. */
  function BaseQuery(query: string): map<string, QueryValue> {
    var parsed := ParseQs(query);
    map k | k in parsed :: Values(parsed[k])
  }

  /**
   * The query dict encoded for one page: every parameter of the parsed
   * template query keeps its values, and "page" (added if absent, replaced
   * if present) is the page number.
   */
  function PageQuery(base: map<string, QueryValue>, page: int): map<string, QueryValue> {
    base["page" := Number(page)]
  }

  /**
   * The dict of a page holds the template's parameters with their parse_qs
   * values and "page", set to the page number.
   */
  lemma PageQueryContents(query: string, page: int)
    ensures var q := PageQuery(BaseQuery(query), page);
            q.Keys == ParseQs(query).Keys + {"page"} && q["page"] == Number(page) &&
            forall k :: k in q && k != "page" ==> q[k] == Values(ParseQs(query)[k])
  {
  }

  /**
   * Setting "page" in the dict parse_qs returned, or in the dict of the
   * previous page, gives the dict of the new page: the previous page number
   * is replaced and nothing else changes.
   */
  lemma PageQueryStep(q: map<string, QueryValue>, base: map<string, QueryValue>, previous: int, page: int)
    requires q == base || q == PageQuery(base, previous)
    ensures q["page" := Number(page)] == PageQuery(base, page)
  {
  }

  /** The URL of one page, before it is resolved against the response URL. */
  function PageTarget(template: SplitResult, base: map<string, QueryValue>, page: int, lib: UrlLib): string {
    UrlUnsplit(template.(query := lib.urlencode(PageQuery(base, page))))
  }

  /** The URL _pagination_iter yields for one page. */
  function PageUrl(responseUrl: string, template: SplitResult, base: map<string, QueryValue>, page: int, lib: UrlLib): string {
    lib.urljoin(responseUrl, PageTarget(template, base, page, lib))
  }

  /** The URL of each page, as a function of the page number. */
  function PageUrlOf(responseUrl: string, template: SplitResult, base: map<string, QueryValue>, lib: UrlLib): int -> string {
    page => PageUrl(responseUrl, template, base, page, lib)
  }

  /** The URLs of the pages first, first + 1, ..., first + count - 1, in that order. */
  function PageUrlList(pageUrl: int -> string, first: int, count: nat): seq<string> {
    if count == 0 then [] else PageUrlList(pageUrl, first, count - 1) + [pageUrl(first + count - 1)]
  }

  /** The list holds one URL per page, the i-th for page first + i: ascending page order. */
  lemma {:induction false} PageUrlListAt(pageUrl: int -> string, first: int, count: nat)
    ensures var urls := PageUrlList(pageUrl, first, count);
            |urls| == count && forall i :: 0 <= i < count ==> urls[i] == pageUrl(first + i)
  {
    if count > 0 {
      PageUrlListAt(pageUrl, first, count - 1);
    }
  }

  /**
   * The loop of _pagination_iter: for each page in range(first, last + 1),
   * set "page" in the template's query dict, encode it, put it back into
   * the template URL and resolve that against the response URL.
   */
  method PageUrls(responseUrl: string, template: SplitResult, baseQuery: map<string, QueryValue>,
                  firstPage: int, lastPage: int, lib: UrlLib)
    returns (urls: seq<string>)
    ensures urls == PageUrlList(PageUrlOf(responseUrl, template, baseQuery, lib), firstPage,
                                if firstPage <= lastPage then lastPage - firstPage + 1 else 0)
  {
    var query := baseQuery;
    urls := [];
    var page := firstPage;
    while page <= lastPage
      invariant firstPage <= page && (page <= lastPage + 1 || page == firstPage)
      invariant query == baseQuery || query == PageQuery(baseQuery, page - 1)
      invariant urls == PageUrlList(PageUrlOf(responseUrl, template, baseQuery, lib), firstPage, page - firstPage)
      decreases lastPage - page
    {
      PageQueryStep(query, baseQuery, page - 1, page);
      query := query["page" := Number(page)];
      var queryString := lib.urlencode(query);
      var url := UrlUnsplit(template.(query := queryString));
      url := lib.urljoin(responseUrl, url);
      urls := urls + [url];
      page := page + 1;
    }
  }

  /**
   * What _pagination_iter yields when run to its end, given what its two
   * helpers returned: the range error first, then the template's; otherwise
   * one URL per page from first to last.
   */
  function Paginate(responseUrl: string, range: Result<(int, int)>, base: Result<SplitResult>, lib: UrlLib): Result<seq<string>> {
    match range
    case Err(e) => Err(e)
    case Ok((first, last)) =>
      match base
      case Err(e) => Err(e)
      case Ok(template) =>
        Ok(PageUrlList(PageUrlOf(responseUrl, template, BaseQuery(template.query), lib), first, if first <= last then last - first + 1 else 0))
  }

  /** What _pagination_iter yields for the paginator hrefs of a page. */
  function PaginationResult(responseUrl: string, hrefs: seq<string>, lib: UrlLib): Result<seq<string>> {
    Paginate(responseUrl, PageRange(hrefs), PaginationBase(hrefs), lib)
  }

  /** _pagination_iter */
  method PaginationUrls(responseUrl: string, hrefs: seq<string>, lib: UrlLib) returns (r: Result<seq<string>>)
    ensures r == PaginationResult(responseUrl, hrefs, lib)
  {
    var range := GetPaginationRange(hrefs);
    BaseFollowsRange(hrefs);
    r := PaginateFrom(responseUrl, range, PaginationBase(hrefs), lib);
  }

  /**
   * The body of _pagination_iter once its two helpers have returned: their
   * first exception, or the URL of every page of the range, built on the
   * template's parsed query.
   */
  method PaginateFrom(responseUrl: string, range: Result<(int, int)>, base: Result<SplitResult>, lib: UrlLib)
    returns (r: Result<seq<string>>)
    requires range.Ok? ==> base.Ok?
    ensures r == Paginate(responseUrl, range, base, lib)
  {
    if range.Err? {
      return Err(range.error);
    }
    var firstPage := range.value.0;
    var lastPage := range.value.1;
    var template := base.value;
    var baseQuery := BaseQuery(template.query);
    var urls := PageUrls(responseUrl, template, baseQuery, firstPage, lastPage, lib);
    return Ok(urls);
  }

  /**
   * With a range first..last (first <= last) and a template,
   * _pagination_iter yields last - first + 1 URLs, the i-th the URL of page
   * first + i built on the template's parsed query (PageUrlOfAt: that is
   * PageUrl of the page).
   */
  lemma PaginateOk(responseUrl: string, first: int, last: int, template: SplitResult, lib: UrlLib)
    requires first <= last
    ensures var r := Paginate(responseUrl, Ok((first, last)), Ok(template), lib);
            var pageUrl := PageUrlOf(responseUrl, template, BaseQuery(template.query), lib);
            r.Ok? && |r.value| == last - first + 1 &&
            forall i :: 0 <= i < |r.value| ==> r.value[i] == pageUrl(first + i)
  {
    PaginateList(responseUrl, first, last, template, lib);
    PageUrlListAt(PageUrlOf(responseUrl, template, BaseQuery(template.query), lib), first, last - first + 1);
  }

  lemma PaginateList(responseUrl: string, first: int, last: int, template: SplitResult, lib: UrlLib)
    requires first <= last
    ensures Paginate(responseUrl, Ok((first, last)), Ok(template), lib) ==
            Ok(PageUrlList(PageUrlOf(responseUrl, template, BaseQuery(template.query), lib), first, last - first + 1))
  {
  }

  /** The function PageUrlOf gives is PageUrl, page by page. */
  lemma PageUrlOfAt(responseUrl: string, template: SplitResult, base: map<string, QueryValue>, lib: UrlLib, page: int)
    ensures PageUrlOf(responseUrl, template, base, lib)(page) == PageUrl(responseUrl, template, base, page, lib)
  {
  }

  /**
   * With a range first..last found in the hrefs, first <= last, the first
   * href gives the template, and _pagination_iter goes on to yield the URLs
   * of Paginate.
   */
  lemma PaginationOk(responseUrl: string, hrefs: seq<string>, lib: UrlLib, first: int, last: int)
    requires PageRange(hrefs) == Ok((first, last))
    ensures first <= last && PaginationBase(hrefs).Ok?
    ensures PaginationResult(responseUrl, hrefs, lib) == Paginate(responseUrl, Ok((first, last)), PaginationBase(hrefs), lib)
  {
    RangeOrdered(PageParams(hrefs));
    BaseFollowsRange(hrefs);
  }

  /**
   * A range error stops _pagination_iter before its first URL, with the
   * same exception; the IndexError of the template never surfaces.
   */
  lemma PaginationError(responseUrl: string, hrefs: seq<string>, lib: UrlLib)
    ensures PaginationResult(responseUrl, hrefs, lib).Err? <==> PageRange(hrefs).Err?
    ensures PageRange(hrefs).Err? ==> PaginationResult(responseUrl, hrefs, lib) == Err(PageRange(hrefs).error)
  {
    BaseFollowsRange(hrefs);
  }

  /**
   * Every page URL keeps the scheme, host, path and fragment of the first
   * paginator href; only the query changes, to the encoded page query. This
   * holds when the encoded query has no '#' and the href is one urlsplit
   * reads back (not a path beginning with "//" without a host).
   */
  lemma PageTargetKeepsTemplate(href: string, page: int, lib: UrlLib)
    requires !(UrlSplit(href).netloc == [] && |UrlSplit(href).path| >= 2 && UrlSplit(href).path[..2] == "//")
    requires Avoids(lib.urlencode(PageQuery(BaseQuery(UrlSplit(href).query), page)), {'#'})
    ensures var t := UrlSplit(href);
            var base := BaseQuery(t.query);
            UrlSplit(PageTarget(t, base, page, lib)) == t.(query := lib.urlencode(PageQuery(base, page)))
  {
    var t := UrlSplit(href);
    SplitIsWellFormed(href);
    SplitOfUnsplit(t.(query := lib.urlencode(PageQuery(BaseQuery(t.query), page))));
  }
}
