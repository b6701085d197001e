/**
 * The callbacks of CurseforgeSpider (mpm/spiders/curseforge.py). Each
 * callback is a generator; here it is a method taking the response URL,
 * meta["item"] and the XPath results it reads, and returning what the
 * generator yields when run to its end, followed by the exception that
 * stopped it, if any. Records are Items shared by reference between the
 * requests that carry them.
 */
module Spider {
  import opened Wrappers
  import opened UrlParse
  import opened Items
  import opened Loaders
  import opened Pagination
  import opened Dependencies

  /** The bound method a Request names as its callback. */
  datatype Callback = ModListPage | ModPage | ModLicense | ModFiles | ModFilesPage | ModFileDetails

  /** A scrapy Request: its URL, its callback, and meta["item"] when meta was given. */
  datatype Request = Request(url: string, callback: Callback, item: Option<Item>)

  /** One value a callback yields: a request to follow, or a finished record. */
  datatype Output = Follow(request: Request) | Emit(record: Item)

  /** A callback run to its end: what it yielded, in order, then the exception that stopped it. */
  datatype Outcome = Outcome(outputs: seq<Output>, raised: Option<Exception>)

  /** The record meta["item"] refers to, as a frame. */
  function MetaFrame(meta: Option<Item>): set<Item> {
    if meta.Some? then {meta.value} else {}
  }

  /* ---------------------------------------------------------------- lists */

  /**
   * parse_mod_list_page: one request per mod link, in document order, each
   * resolved against the response URL, handled by parse_mod_page and
   * carrying no record.
   */
  function ModListRequests(responseUrl: string, modLinks: seq<string>, lib: UrlLib): (outputs: seq<Output>)
    ensures |outputs| == |modLinks|
    ensures forall i :: 0 <= i < |modLinks| ==>
              outputs[i] == Follow(Request(lib.urljoin(responseUrl, modLinks[i]), ModPage, None))
  {
    if modLinks == [] then []
    else
      ModListRequests(responseUrl, modLinks[..|modLinks| - 1], lib) +
      [Follow(Request(lib.urljoin(responseUrl, modLinks[|modLinks| - 1]), ModPage, None))]
  }

  /** One request per URL, in order, for the given callback and with no meta. */
  function PageRequests(urls: seq<string>, callback: Callback): (outputs: seq<Output>)
    ensures |outputs| == |urls|
    ensures forall i :: 0 <= i < |urls| ==> outputs[i] == Follow(Request(urls[i], callback, None))
  {
    if urls == [] then [] else PageRequests(urls[..|urls| - 1], callback) + [Follow(Request(urls[|urls| - 1], callback, None))]
  }

  /** What parse yields: the mod requests of the first page, then one request per list page. */
  function ParseOutcome(mods: seq<Output>, pages: Result<seq<string>>): Outcome {
    match pages
    case Err(e) => Outcome(mods, Some(e))
    case Ok(urls) => Outcome(mods + PageRequests(urls, ModListPage), None)
  }

  /** The loop that yields one request per page URL, after the outputs already yielded. */
  method FollowPages(outputs: seq<Output>, urls: seq<string>, callback: Callback) returns (r: seq<Output>)
    ensures r == outputs + PageRequests(urls, callback)
  {
    r := outputs;
    for i := 0 to |urls|
      invariant r == outputs + PageRequests(urls[..i], callback)
    {
      assert urls[..i + 1][..i] == urls[..i];
      r := r + [Follow(Request(urls[i], callback, None))];
    }
    assert urls[..|urls|] == urls;
  }

  /** parse */
  method Parse(responseUrl: string, modLinks: seq<string>, paginatorHrefs: seq<string>, lib: UrlLib) returns (o: Outcome)
    ensures o == ParseOutcome(ModListRequests(responseUrl, modLinks, lib), PaginationResult(responseUrl, paginatorHrefs, lib))
  {
    var outputs := ModListRequests(responseUrl, modLinks, lib);
    var pages := PaginationUrls(responseUrl, paginatorHrefs, lib);
    if pages.Err? {
      return Outcome(outputs, Some(pages.error));
    }
    outputs := FollowPages(outputs, pages.value, ModListPage);
    return Outcome(outputs, None);
  }

  /**
   * Once _pagination_iter has produced its URLs, parse yields first one
   * parse_mod_page request per mod link and then one parse_mod_list_page
   * request per page URL, in order, none carrying a record, and no exception.
   */
  lemma ParseOutputsInOrder(mods: seq<Output>, urls: seq<string>)
    ensures var o := ParseOutcome(mods, Ok(urls));
            o.raised.None? && |o.outputs| == |mods| + |urls| && o.outputs[..|mods|] == mods &&
            forall i :: 0 <= i < |urls| ==> o.outputs[|mods| + i] == Follow(Request(urls[i], ModListPage, None))
  {
  }

  /**
   * With count page URLs, parse raises nothing and follows exactly count
   * list pages after the mod requests, the i-th for page first + i.
   */
  lemma ParseFanOut(mods: seq<Output>, pageUrl: int -> string, first: int, count: nat)
    ensures var o := ParseOutcome(mods, Ok(PageUrlList(pageUrl, first, count)));
            o.raised.None? && |o.outputs| == |mods| + count &&
            forall i :: |mods| <= i < |mods| + count ==> o.outputs[i] == Follow(Request(pageUrl(first + i - |mods|), ModListPage, None))
  {
    PageUrlListAt(pageUrl, first, count);
    ParseOutputsInOrder(mods, PageUrlList(pageUrl, first, count));
  }

  /**
   * The index page of the sample crawl: three mod links and a paginator
   * whose page values run from 2 to 7 give nine requests, the three mod
   * pages and then the list pages 2, 3, ..., 7, each built from the
   * template href (PaginationOk and PaginateOk give this Paginate for such a
   * paginator).
   */
  lemma ParseSampleIndex(responseUrl: string, modLinks: seq<string>, template: SplitResult, lib: UrlLib)
    requires |modLinks| == 3
    ensures var o := ParseOutcome(ModListRequests(responseUrl, modLinks, lib), Paginate(responseUrl, Ok((2, 7)), Ok(template), lib));
            o.raised.None? && |o.outputs| == 9 &&
            (forall i :: 0 <= i < 3 ==> o.outputs[i] == Follow(Request(lib.urljoin(responseUrl, modLinks[i]), ModPage, None))) &&
            forall i :: 3 <= i < 9 ==>
              o.outputs[i] == Follow(Request(PageUrl(responseUrl, template, BaseQuery(template.query), i - 1, lib), ModListPage, None))
  {
    var pageUrl := PageUrlOf(responseUrl, template, BaseQuery(template.query), lib);
    assert Paginate(responseUrl, Ok((2, 7)), Ok(template), lib) == Ok(PageUrlList(pageUrl, 2, 6));
    var mods := ModListRequests(responseUrl, modLinks, lib);
    ParseFanOut(mods, pageUrl, 2, 6);
    ParseOutputsInOrder(mods, PageUrlList(pageUrl, 2, 6));
  }

  /**
   * When the paginator gives no range, parse still yields every mod request
   * of the page before the range error stops it.
   */
  lemma ParseWithoutRange(responseUrl: string, modLinks: seq<string>, paginatorHrefs: seq<string>, lib: UrlLib)
    requires PageRange(paginatorHrefs).Err?
    ensures var o := ParseOutcome(ModListRequests(responseUrl, modLinks, lib), PaginationResult(responseUrl, paginatorHrefs, lib));
            o == Outcome(ModListRequests(responseUrl, modLinks, lib), Some(PageRange(paginatorHrefs).error))
  {
    PaginationError(responseUrl, paginatorHrefs, lib);
  }

  /* ------------------------------------------------------------ mod pages */

  /** What the XPath queries of parse_mod_page return. */
  datatype ModPageData = ModPageData(
    name: seq<string>, description: seq<string>, created: seq<string>, updated: seq<string>,
    downloads: seq<string>, categories: seq<string>, authors: seq<string>, sourceUrl: seq<string>,
    donationUrl: seq<string>, filesLinks: seq<string>, licenseLinks: seq<string>)

  /** The nine fields parse_mod_page loads, each with its XPath result, one call per field. */
  function ModPageSources(page: ModPageData): seq<Add> {
    [Add("name", page.name), Add("description", page.description), Add("created", page.created),
     Add("updated", page.updated), Add("downloads", page.downloads), Add("categories", page.categories),
     Add("authors", page.authors), Add("source_url", page.sourceUrl), Add("donation_url", page.donationUrl)]
  }

  /** The add_xpath calls of parse_mod_page, in order: donation_url is added twice. */
  function ModPageAdds(page: ModPageData): seq<Add> {
    ModPageSources(page) + [ModPageSources(page)[8]]
  }

  /** What load_item() writes into the new ModItem. */
  function ModFields(page: ModPageData): map<string, Value> {
    LoadedFields(ModPageAdds(page))
  }

  /**
   * Each of the nine fields holds the first non-empty fragment its query
   * returned, and is absent when there is none; the repeated donation_url
   * call changes nothing; no other field (mod_url, mod_license, smp) is
   * written by the loader.
   */
  lemma ModPageFields(page: ModPageData)
    ensures var sources := ModPageSources(page);
            (forall i :: 0 <= i < |sources| ==>
               (sources[i].field in ModFields(page) <==> TakeFirst(sources[i].fragments).Some?) &&
               (sources[i].field in ModFields(page) ==>
                  ModFields(page)[sources[i].field] == Text(TakeFirst(sources[i].fragments).value))) &&
            forall f :: f in ModFields(page) ==> exists i :: 0 <= i < |sources| && sources[i].field == f
  {
    var sources := ModPageSources(page);
    RepeatedAddChangesNothing(sources, 8);
    assert DistinctFields(sources);
    forall i | 0 <= i < |sources|
      ensures (sources[i].field in ModFields(page) <==> TakeFirst(sources[i].fragments).Some?) &&
              (sources[i].field in ModFields(page) ==>
                 ModFields(page)[sources[i].field] == Text(TakeFirst(sources[i].fragments).value))
    {
      OneCallPerField(sources, i);
    }
    forall f | f in ModFields(page) ensures exists i :: 0 <= i < |sources| && sources[i].field == f {
      assert f in FieldNames(sources);
      var a :| a in sources && a.field == f;
    }
  }

  /** What parse_mod_page yields, given the record it created. */
  function ModPageOutcome(responseUrl: string, page: ModPageData, item: Item, lib: UrlLib): Outcome {
    if "name" !in ModFields(page) then Outcome([], Some(MissingKey("name")))
    else if page.filesLinks == [] then Outcome([], Some(IndexOutOfRange))
    else
      var files := Follow(Request(lib.urljoin(responseUrl, page.filesLinks[0]), ModFiles, Some(item)));
      if page.licenseLinks == [] then Outcome([files], Some(IndexOutOfRange))
      else Outcome([files, Follow(Request(lib.urljoin(responseUrl, page.licenseLinks[0]), ModLicense, Some(item)))], None)
  }

  /**
   * parse_mod_page: load a new ModItem from the page, set its mod_url, and
   * yield the files request and then the license request, both carrying
   * that record.
   */
  method ParseModPage(responseUrl: string, page: ModPageData, lib: UrlLib) returns (item: Item, o: Outcome)
    ensures fresh(item)
    ensures item.fields == ModFields(page)["mod_url" := Text(responseUrl)]
    ensures o == ModPageOutcome(responseUrl, page, item, lib)
  {
    item := new Item();
    item.Load(LoadedFields(ModPageAdds(page)));
    item.Put("mod_url", Text(responseUrl));
    assert item.fields == ModFields(page)["mod_url" := Text(responseUrl)];
    assert "name" in item.fields <==> "name" in ModFields(page);
    if "name" !in item.fields {
      return item, Outcome([], Some(MissingKey("name")));
    }
    if page.filesLinks == [] {
      return item, Outcome([], Some(IndexOutOfRange));
    }
    var filesUrl := page.filesLinks[0];
    var outputs := [Follow(Request(lib.urljoin(responseUrl, filesUrl), ModFiles, Some(item)))];
    if page.licenseLinks == [] {
      return item, Outcome(outputs, Some(IndexOutOfRange));
    }
    var licenseUrl := page.licenseLinks[0];
    outputs := outputs + [Follow(Request(lib.urljoin(responseUrl, licenseUrl), ModLicense, Some(item)))];
    return item, Outcome(outputs, None);
  }

  /**
   * On a complete mod page parse_mod_page yields exactly two requests, the
   * first Files link and then the first License link, each resolved against
   * the page URL, and both carry the same record.
   * Otherwise: KeyError when no name fragment is non-empty, IndexError
   * before any request when the Files link is missing, and IndexError after
   * the files request when the License link is missing.
   */
  lemma ModPageRequests(responseUrl: string, page: ModPageData, item: Item, lib: UrlLib)
    ensures var o := ModPageOutcome(responseUrl, page, item, lib);
            var named := TakeFirst(page.name).Some?;
            (!named ==> o == Outcome([], Some(MissingKey("name")))) &&
            (named && page.filesLinks == [] ==> o == Outcome([], Some(IndexOutOfRange))) &&
            (named && page.filesLinks != [] ==>
               |o.outputs| >= 1 && o.outputs[0].request.url == lib.urljoin(responseUrl, page.filesLinks[0]) &&
               o.outputs[0].request.callback == ModFiles && o.outputs[0].request.item == Some(item)) &&
            (named && page.filesLinks != [] && page.licenseLinks == [] ==>
               |o.outputs| == 1 && o.raised == Some(IndexOutOfRange)) &&
            (named && page.filesLinks != [] && page.licenseLinks != [] ==>
               |o.outputs| == 2 && o.raised.None? &&
               o.outputs[1].request.url == lib.urljoin(responseUrl, page.licenseLinks[0]) &&
               o.outputs[1].request.callback == ModLicense &&
               o.outputs[0].request.item == o.outputs[1].request.item == Some(item))
  {
    ModPageFields(page);
    assert ModPageSources(page)[0] == Add("name", page.name);
  }

  /* -------------------------------------------------------------- license */

  /** What the loader of parse_mod_license writes: the body, unless it is empty. */
  function LicenseFields(body: string): map<string, Value> {
    LoadedFields([Add("mod_license", [body])])
  }

  lemma LicenseFieldsAre(body: string)
    ensures LicenseFields(body) == if body == "" then map[] else map["mod_license" := Text(body)]
  {
    FirstNonEmptyWins([Add("mod_license", [body])], "mod_license");
    assert Contributed([Add("mod_license", [body])], "mod_license") == [body];
    assert FieldNames([Add("mod_license", [body])]) == {"mod_license"};
    assert TakeFirst([body]) == if body == "" then None else Some(body);
  }

  /**
   * parse_mod_license: set mod_license on the record carried in meta and
   * yield that same record; KeyError when the request carried no record.
   */
  method ParseModLicense(meta: Option<Item>, body: string) returns (o: Outcome)
    modifies MetaFrame(meta)
    ensures meta.None? ==> o == Outcome([], Some(MissingKey("item")))
    ensures meta.Some? ==> o == Outcome([Emit(meta.value)], None) &&
                           meta.value.fields == old(meta.value.fields) + LicenseFields(body)
  {
    if meta.None? {
      return Outcome([], Some(MissingKey("item")));
    }
    var item := meta.value;
    item.Load(LicenseFields(body));
    return Outcome([Emit(item)], None);
  }

  /**
   * Item assignment accepts only the fields an Item class declares: every
   * field parse_mod_page and parse_mod_license write is one ModItem
   * declares, and a file row's record is handed exactly the fields
   * ModFileItem declares.
   */
  lemma WritesDeclaredFields(page: ModPageData, body: string, modName: Value, row: FileRow)
    ensures ModFields(page).Keys + {"mod_url"} <= ModItemFields
    ensures LicenseFields(body).Keys <= ModItemFields
    ensures FileFields(modName, row).Keys == ModFileItemFields
  {
    var sources := ModPageSources(page);
    assert forall i :: 0 <= i < |sources| ==> sources[i].field in ModItemFields;
    ModPageFields(page);
    LicenseFieldsAre(body);
  }

  /* ------------------------------------------------------------ file lists */

  /** What the row-relative XPath queries of parse_mod_files_page return for one table row. */
  datatype FileRow = FileRow(
    name: seq<string>, release: seq<string>, mcVersion: seq<string>, size: seq<string>,
    uploadDate: seq<string>, downloads: seq<string>, downloadUrl: seq<string>)

  function Texts(fragments: seq<string>): (vs: seq<Value>)
    ensures |vs| == |fragments| && forall i :: 0 <= i < |fragments| ==> vs[i] == Text(fragments[i])
  {
    if fragments == [] then [] else Texts(fragments[..|fragments| - 1]) + [Text(fragments[|fragments| - 1])]
  }

  /** What a row's ModFileItem is handed: the mod's name and the row's fragments, field by field. */
  function FileFields(modName: Value, row: FileRow): map<string, Value> {
    map["mod" := Unprocessed([modName]), "name" := Unprocessed(Texts(row.name)),
        "release" := Unprocessed(Texts(row.release)), "mc_version" := Unprocessed(Texts(row.mcVersion)),
        "size" := Unprocessed(Texts(row.size)), "upload_date" := Unprocessed(Texts(row.uploadDate)),
        "downloads" := Unprocessed(Texts(row.downloads)), "download_url" := Unprocessed(Texts(row.downloadUrl))]
  }

  /** The exception the first row of a files page raises, if any. */
  function FilesPageError(meta: Option<Item>, detailHrefs: seq<string>): Option<Exception>
    reads MetaFrame(meta)
  {
    if meta.None? then Some(MissingKey("item"))
    else if "name" !in meta.value.fields then Some(MissingKey("name"))
    else if detailHrefs == [] then Some(IndexOutOfRange)
    else None
  }

  /** The records the requests among the outputs carry. */
  function CarriedItems(outputs: seq<Output>): set<Item> {
    set i | 0 <= i < |outputs| && outputs[i].Follow? && outputs[i].request.item.Some? :: outputs[i].request.item.value
  }

  /**
   * The requests of a files page: one per row, in row order, each for
   * parse_mod_file_details at the first detail href of the whole page,
   * each carrying its own record holding that row's fields.
   */
  ghost predicate FileRequests(outputs: seq<Output>, responseUrl: string, modName: Value, rows: seq<FileRow>,
                               detailHref: string, lib: UrlLib)
    reads CarriedItems(outputs)
  {
    |outputs| == |rows| &&
    (forall i :: 0 <= i < |rows| ==>
       outputs[i].Follow? && outputs[i].request.url == lib.urljoin(responseUrl, detailHref) &&
       outputs[i].request.callback == ModFileDetails && outputs[i].request.item.Some? &&
       outputs[i].request.item.value.fields == FileFields(modName, rows[i])) &&
    forall i, j :: 0 <= i < j < |rows| ==> outputs[i].request.item != outputs[j].request.item
  }

  /**
   * parse_mod_files_page: for each table row a new ModFileItem is loaded
   * with the mod's name and the row's fragments, and a detail request
   * carrying it is yielded. The detail URL is the first detail href of the
   * whole page, whatever the row. The first row raises KeyError when the
   * request carried no record or the record has no name, and IndexError
   * when the page has no detail href; a page without rows yields nothing.
   */
  method ParseModFilesPage(responseUrl: string, meta: Option<Item>, rows: seq<FileRow>, detailHrefs: seq<string>,
                           lib: UrlLib) returns (o: Outcome)
    ensures rows == [] ==> o == Outcome([], None)
    ensures rows != [] && FilesPageError(meta, detailHrefs).Some? ==> o == Outcome([], FilesPageError(meta, detailHrefs))
    ensures rows != [] && FilesPageError(meta, detailHrefs).None? ==>
              o.raised.None? && FileRequests(o.outputs, responseUrl, meta.value.fields["name"], rows, detailHrefs[0], lib)
    ensures forall it :: it in CarriedItems(o.outputs) ==> fresh(it)
  {
    var outputs: seq<Output> := [];
    for i := 0 to |rows|
      invariant i > 0 ==> FilesPageError(meta, detailHrefs).None?
      invariant i > 0 ==> FileRequests(outputs, responseUrl, meta.value.fields["name"], rows[..i], detailHrefs[0], lib)
      invariant i == 0 ==> outputs == []
      invariant forall it :: it in CarriedItems(outputs) ==> fresh(it)
    {
      var fileItem := new Item();
      if meta.None? {
        return Outcome(outputs, Some(MissingKey("item")));
      }
      var modItem := meta.value;
      if "name" !in modItem.fields {
        return Outcome(outputs, Some(MissingKey("name")));
      }
      var row := rows[i];
      fileItem.Load(FileFields(modItem.fields["name"], row));
      if detailHrefs == [] {
        return Outcome(outputs, Some(IndexOutOfRange));
      }
      var fileDetailUrl := detailHrefs[0];
      ghost var before := outputs;
      outputs := outputs + [Follow(Request(lib.urljoin(responseUrl, fileDetailUrl), ModFileDetails, Some(fileItem)))];
      FileRequestsGrow(before, outputs, responseUrl, modItem.fields["name"], rows, i, fileDetailUrl, lib, fileItem);
    }
    assert rows[..|rows|] == rows;
    return Outcome(outputs, None);
  }

  /** Appending the request of row i, carrying a record not carried before, extends the requests of rows[..i]. */
  lemma FileRequestsGrow(before: seq<Output>, after: seq<Output>, responseUrl: string, modName: Value,
                         rows: seq<FileRow>, i: nat, detailHref: string, lib: UrlLib, fileItem: Item)
    requires i < |rows|
    requires i > 0 ==> FileRequests(before, responseUrl, modName, rows[..i], detailHref, lib)
    requires i == 0 ==> before == []
    requires fileItem !in CarriedItems(before) && fileItem.fields == FileFields(modName, rows[i])
    requires after == before + [Follow(Request(lib.urljoin(responseUrl, detailHref), ModFileDetails, Some(fileItem)))]
    ensures FileRequests(after, responseUrl, modName, rows[..i + 1], detailHref, lib)
    ensures CarriedItems(after) == CarriedItems(before) + {fileItem}
  {
    assert CarriedItems(after) == CarriedItems(before) + {fileItem} by {
      assert after[|before|].request.item.value == fileItem;
      forall k | 0 <= k < |before| ensures after[k] == before[k] { }
    }
    forall j | 0 <= j < |before|
      ensures after[j].request.item != after[|before|].request.item
    {
      assert before[j].request.item.value in CarriedItems(before);
    }
  }

  /* ------------------------------------------------------------ mod files */

  /**
   * parse_mod_files: one parse_mod_files_page request per page of the
   * files list, without meta, then what parse_mod_files_page yields for
   * the first page. A range error stops it before it yields anything.
   */
  method ParseModFiles(responseUrl: string, meta: Option<Item>, paginatorHrefs: seq<string>, rows: seq<FileRow>,
                       detailHrefs: seq<string>, lib: UrlLib) returns (o: Outcome)
    ensures var r := PaginationResult(responseUrl, paginatorHrefs, lib);
            r.Err? ==> o == Outcome([], Some(r.error))
    ensures var r := PaginationResult(responseUrl, paginatorHrefs, lib);
            r.Ok? ==>
              var pages := PageRequests(r.value, ModFilesPage);
              |o.outputs| >= |pages| && o.outputs[..|pages|] == pages &&
              (rows == [] ==> o == Outcome(pages, None)) &&
              (rows != [] && FilesPageError(meta, detailHrefs).Some? ==> o == Outcome(pages, FilesPageError(meta, detailHrefs))) &&
              (rows != [] && FilesPageError(meta, detailHrefs).None? ==>
                 o.raised.None? &&
                 FileRequests(o.outputs[|pages|..], responseUrl, meta.value.fields["name"], rows, detailHrefs[0], lib))
  {
    var pages := PaginationUrls(responseUrl, paginatorHrefs, lib);
    if pages.Err? {
      return Outcome([], Some(pages.error));
    }
    var outputs := FollowPages([], pages.value, ModFilesPage);
    var rest := ParseModFilesPage(responseUrl, meta, rows, detailHrefs, lib);
    assert (outputs + rest.outputs)[|outputs|..] == rest.outputs;
    assert (outputs + rest.outputs)[..|outputs|] == outputs;
    return Outcome(outputs + rest.outputs, rest.raised);
  }

  /**
   * The page requests parse_mod_files yields carry no meta, so each later
   * files page it requests stops at its first row with KeyError("item"),
   * before yielding a detail request (ParseModFilesPage with that meta).
   */
  lemma LaterFilesPagesFail(urls: seq<string>, detailHrefs: seq<string>)
    ensures var pages := PageRequests(urls, ModFilesPage);
            forall i :: 0 <= i < |pages| ==>
              pages[i].Follow? && pages[i].request.callback == ModFilesPage && pages[i].request.item.None? &&
              FilesPageError(pages[i].request.item, detailHrefs) == Some(MissingKey("item"))
  {
  }

  /* ---------------------------------------------------------- file details */

  /** What the XPath queries of parse_mod_file_details return. */
  datatype DetailPage = DetailPage(md5: seq<string>, changelog: seq<string>, dependencies: seq<DependencyEntry>)

  /** What the loader of parse_mod_file_details is handed, field by field. */
  function DetailFields(page: DetailPage): map<string, Value>
    requires AllNamed(page.dependencies)
  {
    var deps := map["optional" := OptionalNames(page.dependencies), "required" := RequiredNames(page.dependencies)];
    map["md5" := Unprocessed(Texts(page.md5)), "changelog" := Unprocessed(Texts(page.changelog)),
        "dependencies" := Unprocessed([Dict(deps)])]
  }

  /**
   * parse_mod_file_details: partition the related projects, hand md5,
   * changelog and the dependency dict to the record carried in meta, and
   * yield that record. KeyError when no record was carried; IndexError,
   * with the record untouched, when a related project has no name.
   */
  method ParseModFileDetails(meta: Option<Item>, page: DetailPage) returns (o: Outcome)
    modifies MetaFrame(meta)
    ensures meta.None? ==> o == Outcome([], Some(MissingKey("item")))
    ensures meta.Some? && !AllNamed(page.dependencies) ==>
              o == Outcome([], Some(IndexOutOfRange)) && meta.value.fields == old(meta.value.fields)
    ensures meta.Some? && AllNamed(page.dependencies) ==>
              o == Outcome([Emit(meta.value)], None) && meta.value.fields == old(meta.value.fields) + DetailFields(page)
  {
    if meta.None? {
      return Outcome([], Some(MissingKey("item")));
    }
    var item := meta.value;
    var dependencyDict := PartitionDependencies(page.dependencies);
    if dependencyDict.Err? {
      return Outcome([], Some(dependencyDict.error));
    }
    item.Load(map["md5" := Unprocessed(Texts(page.md5)), "changelog" := Unprocessed(Texts(page.changelog)),
                  "dependencies" := Unprocessed([Dict(dependencyDict.value)])]);
    return Outcome([Emit(item)], None);
  }
}
