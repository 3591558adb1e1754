# manga-scraping, modelled in Dafny

The Go service scrapes manganato.com listings and detail pages and serves
them as JSON. This project models its `MangaService` and the gin router
that exposes it. The service makes these string decisions:

- the id of a title is the last `-`-separated piece of its link;
- the `Updated : … View : …` text of a search result is split by a
  regular expression;
- the number of pages is the largest pagination label, unless a
  last-page link overrides it;
- the rating text loses its first three words;
- the description loses its surrounding newlines and its `Description :`
  label;
- the detail page is tried on chapmanganato.to first and on manganato.com
  only as a fallback.

The router decides the HTTP status: 400 for a page parameter that is not a
number, 500 with a fixed message per route for a failed fetch, and 200 with
the service's value otherwise.

Fetching and HTML selection are not modelled. A page is a datatype of the
strings its CSS selectors pick out (`HomeItem`, `SearchItem`, `GenrePage`,
`DetailPage`). A visit of a URL is an oracle `visit: string -> Visit<P>`,
which yields the loaded page or the fetch error. Every service operation
and handler is a pure function of its request parameter and that oracle.

Modules:

- `Model`: `model/model.go`.
- `Dto`: `dto/response.go`.
- `Service`: `service/sevice.go`.
- `Route`: `route/route.go`.
- `Strings`: the parts of Go's `strings` package the code calls (`Split`,
  `Join`, `LastIndex`, `Fields`, `Trim`, `TrimSpace`, `TrimPrefix`), with
  the `unicode.IsSpace` test that `Fields` and `TrimSpace` use.
- `Strconv`: `strconv.Atoi` and `%d`.
- `Pattern`: the one regular expression `Updated : (.+?)View : (.+)` under
  Go's leftmost-first semantics.
- `Wrappers`: `Option` and `Result`.

A Go string is a sequence of Unicode code points here.

A panic inside a scraping callback needs special handling. `words[3:]`
panics in `GetMangaRating` when the rating text has fewer than three
words. The model returns `None` from `GetMangaRating` in that case. It
surfaces as `Error.RuntimePanic` from `GetMangaByID`, and `/mangas/:id`
answers it with status 500 and no body, which is what the recovery
middleware of `gin.Default` sends. Exactly three words give `""`
(`Service.GetMangaRatingShortLines`).

## Model

| member | source | states |
|---|---|---|
| Strings.Split | service/sevice.go:24 | `strings.Split` on one character always gives at least one piece, and no piece contains the separator |
| Strings.JoinOfSplit | service/sevice.go:24 | joining the pieces of a split with the separator gives back the original string |
| Strings.SplitOfJoin | service/sevice.go:24 | splitting the join of separator-free pieces gives back the pieces |
| Strings.SplitOfCons | service/sevice.go:24 | splitting at a first separator peels off exactly the piece before it |
| Strings.SplitLastIsLastSegment | service/sevice.go:24-25 | the last piece of a split is what follows the last separator: a separator-free suffix that is all of the string or directly follows a separator |
| Strings.IndexOf | service/sevice.go:24 | `strings.Index` for one character: -1 exactly when it is absent, otherwise its first position |
| Strings.LastIndex | service/sevice.go:311 | `strings.LastIndex` for one character: -1 exactly when it is absent, otherwise its last position |
| Strings.AfterLast | service/sevice.go:311-314 | the slice after the last `/` is the last segment, and it is the whole string when there is no `/` |
| Strings.LastSegmentUnique | service/sevice.go:311-314 | a string has exactly one last segment for a given separator |
| Strings.AfterLastOfAppend | service/sevice.go:311-314 | a separator-free tail after a separator is what follows the last separator, whatever precedes it |
| Strings.Fields | service/sevice.go:327 | `strings.Fields` yields non-empty words with no white space in them |
| Strings.FieldsOfToken | service/sevice.go:327 | a maximal run of non-space characters at the start becomes the first word, followed by the words of the rest |
| Strings.FieldsSkipsSpace | service/sevice.go:327 | white space before the first word is skipped; with FieldsOfToken this fixes the words of every input, so words break only at white space |
| Strings.FieldsKeepNonSpace | service/sevice.go:327 | the words of `Fields` put together are exactly the non-white-space characters of the input, in order |
| Strings.JoinLength | service/sevice.go:331 | a `strings.Join` is as long as its parts together plus one separator between each pair, and empty for no parts |
| Strings.FieldsOfJoin | service/sevice.go:327-331 | splitting words that were joined with single spaces gives the words back |
| Strings.Trim | service/sevice.go:136-137 | trimming with a character class leaves no dropped character at either end |
| Strings.TrimWrapped | service/sevice.go:336 | trimming removes exactly a border of dropped characters: a middle with kept ends comes back unchanged, whatever dropped characters surround it |
| Strings.TrimPrefix | service/sevice.go:337 | `strings.TrimPrefix` removes the prefix once when it is present and returns the input unchanged otherwise |
| Strconv.Atoi | service/sevice.go:317 | `strconv.Atoi` succeeds exactly on an optional sign followed by at least one digit; on failure the value is 0, never a partial number |
| Strconv.Digits | service/sevice.go:170 | the decimal digits of a natural number have no leading zero (a leading `0` is `0` alone) and denote that number |
| Strconv.Decimal | service/sevice.go:170 | `%d` renders the canonical decimal: a `-` exactly for negative numbers, then digits with no leading zero (except `0` itself) whose value is the magnitude; no `+` and no `/` |
| Strconv.DigitsValueOfPadded | service/sevice.go:317 | leading zeros do not change the value of a digit string |
| Strconv.AtoiOfDigits | route/route.go:64 | an unsigned digit string is accepted and reads as the number it denotes |
| Strconv.AtoiOfSigned | route/route.go:64 | a `+` or `-` before a digit string is accepted, and `-` negates the value |
| Strconv.AtoiOfPadded | route/route.go:64 | `Atoi` accepts an optional `+` or `-` and leading zeros before the digits of `n`, and reads exactly `n`, negated after `-` (so `007` is 7, `+5` is 5 and `-0` is 0) |
| Strconv.AtoiOfDecimal | service/sevice.go:170 | `Atoi` reads back exactly the number `%d` printed, negative numbers included |
| Pattern.LazyEnd | service/sevice.go:131 | the lazy group `(.+?)` ends at the first place where `View : ` followed by a non-newline can start, or there is none on the line |
| Pattern.FindFrom | service/sevice.go:131-132 | the search finds the leftmost start that has a match and, at that start, the shortest first group; none means no match at or after that point |
| Pattern.Reported | service/sevice.go:131-132 | none exactly when the pattern matches nowhere; otherwise the match Go's leftmost-first engine reports |
| Pattern.ReportedUnique | service/sevice.go:131-132 | the reported match is unique |
| Pattern.LineEnd | service/sevice.go:131 | the greedy `(.+)` runs to the next newline or to the end of the text |
| Pattern.Submatch | service/sevice.go:131-135 | `FindStringSubmatch` gives no groups exactly when the pattern matches nowhere, and otherwise the two groups of the reported match |
| Pattern.SubmatchOfLine | service/sevice.go:131-135 | for a one-line `Updated : u View : v` whose `u` contains no earlier `View : `, the groups are exactly `u` and `v` |
| Service.ItemId | service/sevice.go:23-25 | the id is the last segment after `-` of the link: it contains no `-`, and it is all of the link or directly follows a `-` |
| Service.ItemIdWithoutDash | service/sevice.go:172-174 | a link without `-` is its own id |
| Service.ItemIdOfEmpty | service/sevice.go:172-174 | the empty link gives the empty id |
| Service.ItemIdAfterLastDash | service/sevice.go:172-174 | the id is exactly the `-`-free text after the last `-`, whatever precedes it |
| Service.ExtractLastPageNumber | service/sevice.go:309-323 | the result is `Atoi` of exactly the last segment after `/` (the whole link when there is none): the value it parses, or 0 on a parse failure |
| Service.ExtractLastPageNumberOfLink | service/sevice.go:311-321 | a link ending in `/<n>` yields `n`, whatever comes before the last `/` |
| Service.GetMangaRating | service/sevice.go:325-332 | it fails (the slice panic) exactly when there are fewer than three words; otherwise the words of the result are the input's words minus the first three, joined by single spaces |
| Service.GetMangaRatingOfWords | service/sevice.go:327-331 | a rating line of single-space-separated words gives the words after the third, rejoined, or fails when there are fewer than three |
| Service.GetMangaRatingExample | service/sevice.go:327-331 | `Rating : 4.5/5 9 votes` gives `9 votes` |
| Service.GetMangaRatingShortLines | service/sevice.go:330 | exactly three words give "", and two words are the panic |
| Service.CleanDescription | service/sevice.go:335-337 | the cleaned description is no longer than the input and does not end in a newline |
| Service.CleanDescriptionOfLabelled | service/sevice.go:335-337 | newlines around a labelled block are removed along with one `Description :\n` label, leaving the body; a body that itself starts with the label keeps it |
| Service.CleanDescriptionOfUnlabelled | service/sevice.go:336-337 | without the label, only the surrounding newlines are removed |
| Service.CleanDescriptionExample | service/sevice.go:335-337 | `\nDescription :\nSome text\n` gives `Some text` |
| Service.GetMangaDescription | service/sevice.go:334-338 | the description becomes the cleaned text, and every other field of the details is unchanged |
| Service.SplitUpdatedView | service/sevice.go:130-138 | both fields are "" when the pattern matches nowhere; otherwise they are the two groups of the reported match with white space trimmed |
| Service.SplitUpdatedViewOfLine | service/sevice.go:130-138 | a well-formed `Updated : u View : v` line with no outer white space around `u` and `v` splits into exactly `u` and `v` |
| Service.SplitUpdatedViewExample | service/sevice.go:130-138 | `Updated : Jan 1View : 100` splits into `Jan 1` and `100` |
| Service.PaginationStep | service/sevice.go:196-201 | one label step keeps the running value unless the label parses and exceeds it; the result is at least both the running value and the parsed label, and is one of the two |
| Service.LabelMax | service/sevice.go:195-201 | the pagination pass gives a result of at least 0 that bounds every label that parses, and it equals one such label unless it is 0 |
| Service.LastPage | service/sevice.go:195-207 | without a last-page link it equals the label maximum `LabelMax`, so it is at least 0 and bounds every numeric label; with one, the last link's number overrides it, and 0 when that link does not end in a number |
| Service.LastPageLinkOverrides | service/sevice.go:203-207 | when a last-page link is present, the pagination labels do not affect the result |
| Service.SortQuery | service/sevice.go:170 | the listing query is empty exactly for the all-titles listing, otherwise it starts with `?`, and it never contains `/` |
| Service.GenreUrl | service/sevice.go:170 | every genre URL is `https://manganato.com/genre-all/`, then the `%d` rendering of the page number, then the listing query |
| Service.GenreUrlOfPageTwo | service/sevice.go:231 | page 2 is fetched as `https://manganato.com/genre-all/2` and, for the top-view listing, `https://manganato.com/genre-all/2?type=topview` |
| Service.SearchUrl | service/sevice.go:120 | the search URL is the fixed prefix followed by the query, unchanged |
| Service.ChapDetailUrl | service/sevice.go:60 | the first detail URL is the chapmanganato.to prefix followed by the id, unchanged |
| Service.DetailUrl | service/sevice.go:62 | the fallback detail URL is the manganato.com prefix followed by the id, unchanged |
| Service.DetailUrlsDiffer | service/sevice.go:60-62 | the two detail URLs never coincide, so the fallback visits a different URL |
| Service.GenreUrlCarriesPage | service/sevice.go:170 | the page number is the last path segment of the genre URL, and the top-view and newest URLs only append `?type=topview` and `?type=newest` |
| Service.GenreUrlInjective | service/sevice.go:231 | different page numbers give different URLs for each of the three listings |
| Service.ScrapeMangaData | service/sevice.go:17-52 | a failed visit of the home page is the error; otherwise there is one title per item, in order, with the id rule applied, the other fields copied and updated/view left "" |
| Service.SearchManga | service/sevice.go:114-164 | the query goes into the search URL unchanged; a failed visit is the error; otherwise there is one title per item with updated/view split from the time text |
| Service.GenreMangas | service/sevice.go:171-193 | one title per genre item, in order, with the id rule applied and every other field copied |
| Service.ScrapeMangaWithPagination | service/sevice.go:166-225 | a failed visit of the genre URL is the error; otherwise the response echoes the requested page and carries the last page and the listed titles |
| Service.ScrapeMangaByTopViewWithPagination | service/sevice.go:227-266 | a failed visit of the top-view URL is the error, and otherwise the result is the listed titles |
| Service.ScrapeMangaByNewestWithPagination | service/sevice.go:268-307 | a failed visit of the newest URL is the error, and otherwise the result is the listed titles |
| Service.ExtractDetails | service/sevice.go:64-97 | it panics exactly when a stats block is present with fewer than three rating words; name, alternative name, author, status and genres are copied; with stats, updated and view are copied and the rating is post-processed, and without stats all three are ""; the description is cleaned; each chapter's title and number are its link text, and its url and upload time are copied |
| Service.GetMangaByID | service/sevice.go:54-112 | the chapmanganato URL is visited first and the manganato URL only when that visit fails; it fails with the second error exactly when both visits fail; otherwise the details come from the page that loaded |
| Route.Project | route/route.go:22-31 | the `/mangas` projection keeps length and order and copies id, name, author, rating and image |
| Route.ProjectIgnoresUpdatedView | route/route.go:24-30 | the projection drops updated and view: titles that agree on the other fields project alike |
| Route.GetMangas | route/route.go:16-33 | 200 exactly when the home page loads, with the body being the projection of the service's list; otherwise 500 `Failed to fetch manga data` |
| Route.GetMangaById | route/route.go:35-46 | 500 `Failed to fetch manga details` exactly when both detail URLs fail; 500 with no body after the rating panic; 200 with the details exactly when the service succeeds |
| Route.GetSearch | route/route.go:48-60 | 200 with the service's list exactly when the search URL of the raw query loads, otherwise 500 `Failed to perform manga search` |
| Route.GetLatest | route/route.go:62-76 | 400 `Invalid page number` when the page does not parse; otherwise 200 with the pagination record for that page exactly when it loads, else 500 |
| Route.GetHot | route/route.go:78-92 | 400 when the page does not parse; otherwise 200 with the top-view list exactly when it loads, else 500 `Failed to fetch manga data` |
| Route.GetNewest | route/route.go:94-108 | 400 when the page does not parse; otherwise 200 with the newest list exactly when it loads, else 500 `Failed to fetch manga data` |
| Route.InvalidPageFetchesNothing | route/route.go:63-68 | a page that does not parse gives the same answer whatever the site serves: nothing is fetched |
| Route.LatestReadsOnlyItsListing | route/route.go:62-76 | `/mangas/latest/:page` depends on the site only through the all-titles listing URL of the parsed page |
| Route.HotReadsOnlyItsListing | route/route.go:78-92 | `/mangas/hot/:page` depends on the site only through the top-view listing URL of the parsed page |
| Route.NewestReadsOnlyItsListing | route/route.go:94-108 | `/mangas/newest/:page` depends on the site only through the newest listing URL of the parsed page |
| Route.LatestEchoesPage | service/sevice.go:218-222 | `/mangas/latest/<n>` answers 200 with current page `n` and the page's last-page value when the listing loads |

## Left out

- Fetching, colly's callback dispatch and CSS-selector evaluation are not modelled. A page is the strings the selectors pick out, and a visit is an oracle that loads the page or fails. `OnError` logging is not modelled.
- A selector that matches several elements where the code expects one is not modelled. For example, two `.story-info-right` blocks would make the later callback overwrite the earlier. The model takes one value per field.
- A title element with no match reads as "" in Go (`ChildText` of nothing). The model folds that into the page's strings. Only the stats block is optional, because its presence decides whether the rating is post-processed.
- Strconv.Atoi: works over unbounded integers and has no range error. Go rejects numbers outside 64 bits, so a huge page number gives 400 there but not in the model.
- Strconv.Decimal: `%d` is modelled on unbounded integers, so the 64-bit range of Go's `int` is not modelled. The rendering is Go's: a `-` only for negative numbers, then the digits with no leading zero.
- gin routing and JSON encoding are not modelled, including a nil slice encoding as `null` and the field names of the JSON tags. A handler is a function to a status and a body value.
- Strings are sequences of code points, so byte offsets of UTF-8 text are not modelled. The code's only byte-index slice is `link[startIndex:]`, taken right after the ASCII `/`. `Fields`, `TrimSpace` and `regexp` work on code points, including non-ASCII white space such as U+00A0 and U+3000, so the results agree.
- Pattern.Submatch: models only the fixed pattern `Updated : (.+?)View : (.+)`, not a general regular-expression engine.
- Service.ExtractDetails: a panic is modelled as a missing result. The other fields that callbacks had already written before the panic are not observable, because the request ends there.
