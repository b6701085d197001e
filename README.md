# CurseforgeSpider crawl core, modelled in Dafny

This project models the crawl logic of `CurseforgeSpider`
(`mpm/spiders/curseforge.py`). The spider walks the curseforge mod archive
in this order:

- a mod list page;
- its paginated list pages;
- each mod's page;
- the mod's license page;
- the mod's paginated files list;
- each file's detail page.

At each step it fills in the scraped records, a `ModItem` per mod and a
`ModFileItem` per file. The records travel between fetches in
`meta["item"]`.

HTML evaluation is not modelled. Every XPath query is an input: the sequence
of strings it selects, in document order. A file-table row is given by the
results of its row-relative queries. A related-project entry is given by its
name texts and its `optionallibrary` markers.

Each callback is a generator. Here a callback is a method that returns an
`Outcome`: what the generator yields when run to its end, in order, followed
by the exception that stopped it, if any.

A yielded value is either a `Request` or an emitted record. A `Request` holds
the URL, a tag naming the callback, and the record carried in meta. Records
are instances of a class `Items.Item` whose `fields` map the methods update
in place. Two requests carrying "the same item" therefore share one object,
as they do in the spider.

Modules:

- `Wrappers`: `Option`, `Result`, and the Python exceptions the code can raise. These are `ValueError` from `min`/`max` of an empty list, `ValueError` from `int()`, `IndexError`, and `KeyError`.
- `Builtins`: `unicode.strip()`, `int()` on a string, `str()` on an int, `min` and `max`.
- `UrlParse`: `urlsplit`, `urlunsplit` and `parse_qs` of Python 2's `urlparse`.
  - A URL splits into scheme, authority, path, query and fragment, as in section 3 of RFC 3986.
  - Reference resolution (`urljoin`, section 5.2 of RFC 3986) and `urlencode` are parameters of the model, carried in a `UrlLib` value.
- `Items`: the record class and the field sets `ModItem` and `ModFileItem` declare.
- `Loaders`: `ModItemLoader`, which uses scrapy's `TakeFirst` as both input and output processor. Its outcome is that the first non-empty fragment contributed to a field wins.
- `Pagination`: `_get_pagination_range`, `_get_pagination_base` and `_pagination_iter`.
- `Dependencies`: the partition of related projects in `parse_mod_file_details`.
- `Spider`: the callbacks `parse`, `parse_mod_list_page`, `parse_mod_page`, `parse_mod_license`, `parse_mod_files`, `parse_mod_files_page` and `parse_mod_file_details`.

The imperative parts of the source are methods with loops. Each is proved
equal to a specification function or predicate, and the properties are
lemmas about that specification. These methods are:

- the page-number loop;
- the loop that rewrites `page` in the query dict;
- the dependency partition loop;
- the per-row loop of the files page;
- the loop that yields the page requests.

The pure parts are functions: the URL split and the mod-link mapping.

When no paginator href carries a `page` pair, `page_numbers` stays empty
and `min([])` (mpm/spiders/curseforge.py:68) raises `ValueError`: `parse`
then yields the mod requests of the page and stops with that exception,
and `parse_mod_files` yields nothing at all. The model keeps that
behaviour: see `Pagination.PageRangeEmpty`, `Spider.ParseWithoutRange` and
`Spider.ParseModFiles`.

## Model

| member | source | states |
|---|---|---|
| Builtins.LStripDropsLeadingSpace | mpm/spiders/curseforge.py:343 | the left strip keeps a suffix, all of whose cut-off characters are whitespace, and starts with a non-space |
| Builtins.RStripDropsTrailingSpace | mpm/spiders/curseforge.py:343 | the right strip keeps a prefix, all of whose cut-off characters are whitespace, and ends with a non-space |
| Builtins.StripIsTrimmedSlice | mpm/spiders/curseforge.py:343 | `strip()` is the slice between leading and trailing whitespace, and neither end of the result is whitespace |
| Builtins.StripUntrimmed | mpm/spiders/curseforge.py:343 | a string with no whitespace at either end is unchanged by `strip()` |
| Builtins.DigitsValueOfDigits | mpm/spiders/curseforge.py:65 | the decimal digits of n read back as n |
| Builtins.ParseIntOfDecimal | mpm/spiders/curseforge.py:65 | `int(str(n)) == n` for every int: `str` is a right inverse of `int()` |
| Builtins.Strip | mpm/spiders/curseforge.py:343 | `strip()`; StripIsTrimmedSlice states the result is the slice between leading and trailing whitespace |
| Builtins.ParseInt | mpm/spiders/curseforge.py:65 | `int()` on a string: optional sign and ASCII digits inside whitespace, with whitespace also allowed between the sign and the digits, else ValueError; ParseIntOfDecimal states it inverts `str()`, ParseIntSpaceAfterSign the sign case |
| Builtins.ParseIntSpaceAfterSign | mpm/spiders/curseforge.py:65 | `int()` reads a sign, whitespace, then the digits of n as -n or n: `int("- 5") == -5` |
| Builtins.Min | mpm/spiders/curseforge.py:68 | `min` of a non-empty list is an element and is at most every element |
| Builtins.Max | mpm/spiders/curseforge.py:69 | `max` of a non-empty list is an element and is at least every element |
| UrlParse.FindAny | mpm/spiders/curseforge.py:85 | the index of the first character from a set, or the length; no earlier character is in the set |
| UrlParse.FindAnyIs | mpm/spiders/curseforge.py:85 | those three conditions determine FindAny's result |
| UrlParse.UrlSplit | mpm/spiders/curseforge.py:85 | `urlsplit`: scheme, authority, path, query, fragment; its meaning is stated by SplitComponentsAvoid, SplitIsWellFormed and the round trip SplitOfUnsplit |
| UrlParse.UrlUnsplit | mpm/spiders/curseforge.py:107 | `urlunsplit`, with empty components left out; SplitOfUnsplit proves `urlsplit` reads every component back |
| UrlParse.SplitOfUnsplit | mpm/spiders/curseforge.py:107 | `urlsplit(urlunsplit(p)) == p` for every well-formed 5-tuple |
| UrlParse.SplitIsWellFormed | mpm/spiders/curseforge.py:85 | what `urlsplit` returns is well-formed, unless the authority is empty and the path starts with "//" |
| UrlParse.SplitComponentsAvoid | mpm/spiders/curseforge.py:85 | no component `urlsplit` returns holds a delimiter of a later component; with an authority, the path is empty or absolute |
| UrlParse.SplitKeepsNoScheme | mpm/spiders/curseforge.py:85 | a schemeless, hostless split gives a path from which no scheme is read |
| UrlParse.RelativePathNoScheme | mpm/spiders/curseforge.py:85 | a path cut from the front of a schemeless URL has no scheme |
| UrlParse.SplitOnAny | mpm/spiders/curseforge.py:63 | the query splits on "&" and ";" into at least one piece, and no piece holds a separator |
| UrlParse.SplitOnAnyJoins | mpm/spiders/curseforge.py:63 | the pieces, written back with the query's separators between them in order, give the query again: one more piece than separators |
| UrlParse.PairsHaveValues | mpm/spiders/curseforge.py:63 | `parse_qs` keeps only pairs with a non-empty value |
| UrlParse.PairOfSplitsAtFirstEquals | mpm/spiders/curseforge.py:63 | a piece `name=value` (no "=" in name) is split at its first "=" and gives the pair (name, value) iff value is non-empty |
| UrlParse.PairOfWithoutEquals | mpm/spiders/curseforge.py:63 | a piece without "=" gives no pair |
| UrlParse.PairsOfAppend | mpm/spiders/curseforge.py:63 | the pairs of consecutive pieces follow each other in query order |
| UrlParse.ParseQs | mpm/spiders/curseforge.py:63 | `parse_qs`: its dict is stated by CollectIsValuesOf (each name maps to all its values in order) and FirstValueOf |
| UrlParse.Collect | mpm/spiders/curseforge.py:63 | every name in the `parse_qs` dict maps to a non-empty list |
| UrlParse.CollectIsValuesOf | mpm/spiders/curseforge.py:63 | a name is in the dict iff some pair carries it, and its list is all its values in query order |
| UrlParse.FirstValueOf | mpm/spiders/curseforge.py:65 | `query["page"][0]` is the value of the first pair named "page" |
| Items.Item.constructor | mpm/spiders/curseforge.py:165 | a new record has no field set |
| Items.Item.Put | mpm/spiders/curseforge.py:202 | `item[key] = value` changes that one field and keeps the others |
| Items.Item.Load | mpm/spiders/curseforge.py:200 | `load_item()` writes every field the loader produced and keeps every other field |
| Loaders.TakeFirst | mpm/loaders.py:17-18 | scrapy's TakeFirst; TakeFirstIsFirstNonEmpty states it gives the first non-empty value |
| Loaders.LoadedFields | mpm/loaders.py:17-18 | what `load_item()` writes for a sequence of add calls; FirstNonEmptyWins states each field is the first non-empty fragment contributed to it |
| Loaders.TakeFirstIsFirstNonEmpty | mpm/loaders.py:17-18 | TakeFirst gives nothing iff every value is empty, and otherwise gives the first non-empty value |
| Loaders.TakeFirstAppend | mpm/loaders.py:17-18 | TakeFirst of a concatenation is TakeFirst of the first part if that gives anything, else TakeFirst of the second |
| Loaders.CollectedTakesFirst | mpm/loaders.py:17-18 | applying TakeFirst per call and then over the calls equals TakeFirst over every fragment contributed |
| Loaders.ContributedNamesField | mpm/loaders.py:17-18 | a field that no call names receives no fragment |
| Loaders.FirstNonEmptyWins | mpm/loaders.py:17-18 | a field is loaded iff some call contributed a non-empty fragment, and then holds the first one in call order |
| Loaders.ContributedAppend | mpm/loaders.py:17-18 | the fragments of a field over two runs of calls are those of the first run, then those of the second |
| Loaders.ContributedContains | mpm/loaders.py:17-18 | each call's fragments are a contiguous run of what its field receives |
| Loaders.RepeatedAddChangesNothing | mpm/spiders/curseforge.py:194-198 | repeating an add call (the twice-added `donation_url`) leaves every loaded field as it was |
| Loaders.RepeatedAddSameFirst | mpm/spiders/curseforge.py:194-198 | after a repeated call, the first non-empty fragment of each field is unchanged |
| Loaders.LaterAddDiscarded | mpm/loaders.py:17-18 | a later call never overwrites a field that already has a value |
| Loaders.ContributedByOneCall | mpm/loaders.py:17-18 | when no two calls share a field, a field's fragments are those of its one call |
| Loaders.OneCallPerField | mpm/loaders.py:17-18 | with one call per field, each field is loaded iff its call has a non-empty fragment, and then holds the first one |
| Pagination.PageValue | mpm/spiders/curseforge.py:62-65 | `query["page"][0]` when "page" is in `parse_qs` of the href's query; PageValueIsFirstPair states it is the first "page" pair's value |
| Pagination.Classify | mpm/spiders/curseforge.py:64-65 | what `int()` makes of an href's page value: nothing, a page number, or `int()`'s error; PageParamOf states it per href |
| Pagination.PageValueIsFirstPair | mpm/spiders/curseforge.py:61-65 | an href gives a page value iff a query pair is named "page"; the value is that of the first such pair, so later ones are ignored |
| Pagination.PageParamOf | mpm/spiders/curseforge.py:61-65 | an href contributes nothing iff no query pair is named "page"; otherwise `int()` of the first "page" pair's value gives its page number, or `int()`'s error |
| Pagination.GetPaginationRange | mpm/spiders/curseforge.py:45-70 | the page-number loop and `min`/`max` give exactly PageRange of the hrefs, including its errors |
| Pagination.CollectedStep | mpm/spiders/curseforge.py:61-65 | each href adds nothing, adds a page number, or raises `int()`'s error, unless an error came earlier |
| Pagination.CollectedErrorSticks | mpm/spiders/curseforge.py:65 | once `int()` rejects a value, the later hrefs change nothing |
| Pagination.CollectedOk | mpm/spiders/curseforge.py:61-65 | collecting succeeds iff no page value is rejected by `int()` |
| Pagination.CollectedAreNumbers | mpm/spiders/curseforge.py:61-65 | on success, the list holds every page number in href order; hrefs without "page" contribute nothing |
| Pagination.NumbersMembers | mpm/spiders/curseforge.py:61-65 | n is collected iff some href's page value is n |
| Pagination.NoNumbers | mpm/spiders/curseforge.py:61-65 | nothing is collected iff no href has an integer page value |
| Pagination.CollectedErrorKind | mpm/spiders/curseforge.py:65 | the only error collecting can raise is `int()`'s, and it names the first rejected value |
| Pagination.RangeOf | mpm/spiders/curseforge.py:67-70 | `(min, max)` of the collected numbers, or the exception; RangeBounds, PageRangeEmpty and PageRangeInvalid state its cases |
| Pagination.RangeBounds | mpm/spiders/curseforge.py:58-70 | the range is (min, max) of the page numbers: first <= last, both occur, and every number lies between them |
| Pagination.RangeOrdered | mpm/spiders/curseforge.py:68-70 | a range found is never empty: first <= last |
| Pagination.PageRangeEmpty | mpm/spiders/curseforge.py:64-69 | `min` of an empty list: the range raises this error iff no href has a page parameter |
| Pagination.PageRangeInvalid | mpm/spiders/curseforge.py:65 | the range fails with `int()`'s error iff some page value is not an integer literal, and the error names the first such value |
| Pagination.PaginationBase | mpm/spiders/curseforge.py:82-85 | `_get_pagination_base` raises IndexError iff there is no paginator href; otherwise it splits the first href |
| Pagination.BaseFollowsRange | mpm/spiders/curseforge.py:96-97 | a found range implies a base exists; with no href the range has already failed with `min`'s error, so IndexError never surfaces |
| Pagination.PageQueryContents | mpm/spiders/curseforge.py:100-105 | each page's query dict holds the template's parameters with their `parse_qs` values, plus "page" set to the page number |
| Pagination.PageQueryStep | mpm/spiders/curseforge.py:103-104 | overwriting "page" in the parsed dict, or in the previous page's dict, gives the new page's dict |
| Pagination.PageUrlListAt | mpm/spiders/curseforge.py:103-109 | the list holds count URLs, and the i-th is for page first + i: ascending order, one per page |
| Pagination.PageUrls | mpm/spiders/curseforge.py:103-109 | the loop over `range(first, last + 1)` yields the URL of each page, built from the template and resolved, in page order |
| Pagination.PaginateFrom | mpm/spiders/curseforge.py:96-109 | given the two helpers' results, yields the first exception, or the URL of every page of the range, built on the template's parsed query |
| Pagination.PaginationUrls | mpm/spiders/curseforge.py:87-109 | `_pagination_iter` yields exactly the URLs Paginate specifies, or the exception of the range |
| Pagination.Paginate | mpm/spiders/curseforge.py:96-109 | what `_pagination_iter` yields given its helpers' results; PaginateOk and PageUrlListAt state the URL list, PaginationError the error case |
| Pagination.PaginateOk | mpm/spiders/curseforge.py:96-109 | with first <= last and a template, the result holds last - first + 1 URLs, the i-th the URL of page first + i built on the template's parsed query (`PageUrlOf(..)(p)`, which is `PageUrl(.., p, ..)`) |
| Pagination.PaginationOk | mpm/spiders/curseforge.py:96-109 | a range found in the hrefs is ordered, the base exists, and the iterator yields the URLs of that range |
| Pagination.PaginationError | mpm/spiders/curseforge.py:96-97 | `_pagination_iter` fails iff the range fails, with the same exception, before any URL |
| Pagination.PageTargetKeepsTemplate | mpm/spiders/curseforge.py:97-107 | a page URL keeps the scheme, host, path and fragment of the first href; only the query changes, to the encoded page dict |
| Dependencies.PartitionDependencies | mpm/spiders/curseforge.py:331-348 | fails with IndexError iff some entry has no name text; otherwise the dict holds the optional and the required names in document order |
| Dependencies.PartitionStep | mpm/spiders/curseforge.py:341-348 | each named entry is appended to the list its marker count selects, and the other list is unchanged |
| Dependencies.PartitionCount | mpm/spiders/curseforge.py:341-348 | the optional list is as long as the number of optional entries, and the two lists together are as long as the entries |
| Dependencies.PartitionNames | mpm/spiders/curseforge.py:341-348 | the two lists together hold exactly the stripped names of all entries, as a multiset |
| Dependencies.EntryPlacement | mpm/spiders/curseforge.py:345-348 | an entry is optional iff exactly one marker matched; it sits in its list at the position given by the entries of its kind before it, so document order is kept |
| Dependencies.CountOptionalBound | mpm/spiders/curseforge.py:345-346 | there are no more optional entries than entries |
| Dependencies.ListedNamesComeFromEntries | mpm/spiders/curseforge.py:341-348 | each listed name is the stripped name of an entry of that list's kind |
| Dependencies.NamesAreStripped | mpm/spiders/curseforge.py:343 | no stored name starts or ends with whitespace |
| Spider.ModListRequests | mpm/spiders/curseforge.py:142-146 | `parse_mod_list_page` yields one `parse_mod_page` request per mod link, in order, resolved against the response URL, with no meta |
| Spider.PageRequests | mpm/spiders/curseforge.py:126-127 | one request per page URL, in order, for the given callback, with no meta |
| Spider.FollowPages | mpm/spiders/curseforge.py:126-127 | the loop appends exactly the page requests to what was yielded before |
| Spider.Parse | mpm/spiders/curseforge.py:111-127 | `parse` yields the mod requests of the page, then the list-page requests of `_pagination_iter`, or stops with its exception |
| Spider.ParseOutputsInOrder | mpm/spiders/curseforge.py:123-127 | with page URLs, `parse` yields the mod requests first, then one `parse_mod_list_page` request per URL, and raises nothing |
| Spider.ParseFanOut | mpm/spiders/curseforge.py:123-127 | with count pages, `parse` yields the mod requests plus count list-page requests, the i-th for page first + i |
| Spider.ParseSampleIndex | mpm/spiders/curseforge.py:123-127 | the sample index (tests/test_curseforge_spider.py:20-28): 3 mod links and the page range (2, 7) give 9 requests, the 3 mods then pages 2, ..., 7 built from the template href |
| Spider.ParseWithoutRange | mpm/spiders/curseforge.py:123-127 | when the range fails, `parse` still yields every mod request and then raises the range's exception |
| Spider.ModPageFields | mpm/spiders/curseforge.py:165-200 | each of the nine loaded fields holds its query's first non-empty fragment, or is absent if there is none; nothing else is loaded |
| Spider.ParseModPage | mpm/spiders/curseforge.py:148-222 | a new record with the loaded fields and `mod_url` = response URL, and yields as ModPageOutcome specifies |
| Spider.ModPageOutcome | mpm/spiders/curseforge.py:200-222 | what `parse_mod_page` yields given its record; ModPageRequests states the order, count, carried record, the two request URLs and each error case |
| Spider.ModPageRequests | mpm/spiders/curseforge.py:200-222 | a complete page yields exactly the files request to the first Files href, then the license request to the first License href, each joined to the response URL and both carrying the same record. Without a name: KeyError. Without a Files link: IndexError before any request. Without a License link: IndexError after the files request |
| Spider.LicenseFieldsAre | mpm/spiders/curseforge.py:236-240 | the license loader sets `mod_license` to the body, unless the body is empty |
| Spider.ParseModLicense | mpm/spiders/curseforge.py:224-241 | sets the license on the record carried in meta and yields that same record; KeyError when no record was carried |
| Spider.WritesDeclaredFields | mpm/items.py:19-93 | every field written to a mod record is one ModItem declares; a file row hands its record exactly ModFileItem's fields |
| Spider.ParseModFilesPage | mpm/spiders/curseforge.py:243-287 | one detail request per row, each with its own fresh record holding that row's fields, all at the first detail href of the whole page. The first row raises KeyError without meta or a mod name, and IndexError without a detail href |
| Spider.FileRequestsGrow | mpm/spiders/curseforge.py:264-287 | a row's request with a new record extends the requests of the rows before it |
| Spider.ParseModFiles | mpm/spiders/curseforge.py:290-309 | `parse_mod_files` yields the files-page requests first, then the first page's detail requests; a range error stops it before any output |
| Spider.LaterFilesPagesFail | mpm/spiders/curseforge.py:305-306 | every files-page request `parse_mod_files` yields carries no meta, so `parse_mod_files_page` on that page raises KeyError("item") at its first row |
| Spider.ParseModFileDetails | mpm/spiders/curseforge.py:311-351 | hands md5, changelog and the dependency partition to the record carried in meta and yields it. KeyError without a record. IndexError, with the record untouched, when an entry has no name |

## Left out

- Scrapy's scheduling, downloading and callback dispatch are not modelled. A callback is run once on given inputs, and its outputs are returned as a sequence.
- HTML and XPath evaluation are not modelled. Each query's result is an input sequence of strings.
- The logging calls (lines 101, 145, 204, 209, 219) are left out, except that the `item["name"]` they read raises KeyError when the name was not loaded.
- `urljoin` and `urlencode` are parameters, not definitions. The exact encoded query string, for example for list values without `doseq` and for Python 2's unordered dict, is not modelled. A page's query is modelled as the dict handed to `urlencode`.
- Pagination.PageTargetKeepsTemplate: it assumes that the encoded query holds no '#' and that the first href is not a hostless path starting with "//". That is weaker than an unconditional promise. The other cases depend on `urlencode`'s output, or on a URL `urlsplit` does not read back.
- `urlsplit` is modelled without lower-casing the scheme, without Python 2.7's port heuristic for "name:digits", and without IPv6 checks. `urlunsplit` does not add "//" for the schemes in `uses_netloc` when the netloc is empty. `urlparse` (line 62) is modelled by `urlsplit`, since only its query is read.
- `parse_qs` does not percent-decode names and values and does not turn "+" into a space.
- `int()` accepts only ASCII digits here. Python 2 also accepts other Unicode decimal digits.
- `ModFileItemLoader` is imported at line 18, but `mpm/loaders.py` does not define it. The file records are therefore handed their inputs unprocessed: `Value.Unprocessed` holds what each `add_value`/`add_xpath` received. What that loader would keep is not modelled.
- The file detail loader also writes `md5`, `changelog` and `dependencies`, which `ModFileItem` does not declare. Whether that raises depends on the missing loader, so the model writes them.
- The release-channel enum (mpm/items.py:69-78) is documentation only and is not modelled.
- Value normalisation expected by the tests (dates, download counts, file sizes) has no code in the repository and is not modelled.
- `mpm/pipelines.py`, `mpm/settings.py`, `mpm/cli/mpm.py`, `mpm/spiders/modinfo.py` and `mpm/__init__.py` are not part of this model. They hold no crawl logic.
- Spider.ParseModFiles: only what the first files page yields is stated. The later pages are separate responses, and LaterFilesPagesFail covers them.
