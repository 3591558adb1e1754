/** The scraping service (`MangaService`). Fetching and HTML selection are
    abstracted: a page is given as the strings its selectors pick out, and a
    visit of a URL is an oracle that yields either that page or a fetch error. */
module Service {
  import opened Wrappers
  import opened Strings
  import opened Strconv
  import Pattern
  import opened Model
  import opened Dto

  /** What visiting a URL yields: the loaded page or the fetch error's text. */
  datatype Visit<+P> = Loaded(page: P) | Failed(reason: string)

  /** Why a service call produced no value: the error `Visit` returned, or
      a run-time panic while reading the page (an out-of-range slice). */
  datatype Error = FetchError(reason: string) | RuntimePanic

  const HomeUrl: string := "https://manganato.com/"
  const SearchPrefix: string := "https://manganato.com/search/story/"
  const ChapDetailPrefix: string := "https://chapmanganato.to/manga-"
  const DetailPrefix: string := "https://manganato.com/manga-"
  const GenreBase: string := "https://manganato.com/genre-all"
  const DescriptionPrefix: string := "Description :\n"

  // ---------------------------------------------------------------------------
  // What the selectors pick out of each kind of page

  /** A `.content-homepage-item`: link href, `h3`, author, rate, image src. */
  datatype HomeItem = HomeItem(link: string, name: string, author: string, rating: string, image: string)

  /** A `.search-story-item`; `timeInfo` is the combined `.item-time` text. */
  datatype SearchItem = SearchItem(
    link: string, name: string, image: string, timeInfo: string, author: string, rating: string)

  /** A `.content-genres-item`. */
  datatype GenreItem = GenreItem(
    link: string, name: string, author: string, rating: string, image: string,
    updated: string, view: string)

  /** A genre listing page: its items, the text of each `.pagination li`,
      and the href of each `.page-blue.page-last` link, in document order. */
  datatype GenrePage = GenrePage(items: seq<GenreItem>, pageLabels: seq<string>, lastPageLinks: seq<string>)

  /** The `.story-info-right-extent` block: updated, views and the rating text. */
  datatype StatsBlock = StatsBlock(updated: string, view: string, rateText: string)

  /** A `.row-content-chapter li.a-h`: chapter link text, href and upload time. */
  datatype ChapterRow = ChapterRow(name: string, href: string, time: string)

  /** A detail page. A text whose block is missing reads as "", as Go's
      `ChildText` gives; only the stats block is optional, because its
      presence decides whether the rating is post-processed. */
  datatype DetailPage = DetailPage(
    title: string,
    alternativeName: string,
    author: string,
    status: string,
    genres: seq<string>,
    stats: Option<StatsBlock>,
    description: string,
    chapters: seq<ChapterRow>)

  // ---------------------------------------------------------------------------
  // Text post-processing

  /** The id of a listed title: the last `-`-separated piece of its link. */
  function ItemId(link: string): (id: string)
    ensures IsLastSegment(link, '-', id)
  {
    SplitLastIsLastSegment(link, '-');
    Last(Split(link, '-'))
  }

  /** A link without `-` is its own id. */
  lemma ItemIdWithoutDash(link: string)
    requires '-' !in link
    ensures ItemId(link) == link
  {
    LastSegmentUnique(link, '-', ItemId(link), link);
  }

  /** The empty link gives the empty id. */
  lemma ItemIdOfEmpty()
    ensures ItemId("") == ""
  {
  }

  /** The id is exactly the `-`-free text after the last `-`, whatever precedes it. */
  lemma ItemIdAfterLastDash(prefix: string, id: string)
    requires '-' !in id
    ensures ItemId(prefix + "-" + id) == id
  {
    var s := prefix + "-" + id;
    AfterLastOfAppend(prefix, '-', id);
    LastSegmentUnique(s, '-', ItemId(s), AfterLast(s, '-'));
  }

  /** `extractLastPageNumber`: Atoi of what follows the last `/`. */
  function ExtractLastPageNumber(link: string): (r: Parsed)
    ensures r.ok <==> IsDecimal(AfterLast(link, '/'))
    ensures !r.ok ==> r.value == 0
    ensures '/' !in link ==> r == Atoi(link)
    ensures forall t :: IsLastSegment(link, '/', t) ==> r == Atoi(t)
  {
    forall t | IsLastSegment(link, '/', t)
      ensures t == AfterLast(link, '/')
    {
      LastSegmentUnique(link, '/', t, AfterLast(link, '/'));
    }
    Atoi(AfterLast(link, '/'))
  }

  /** A link ending in `/<n>` yields `n`, whatever comes before. */
  lemma ExtractLastPageNumberOfLink(prefix: string, n: int)
    ensures ExtractLastPageNumber(prefix + "/" + Decimal(n)) == Parsed(n, true)
  {
    AfterLastOfAppend(prefix, '/', Decimal(n));
    AtoiOfDecimal(n);
  }

  /** `GetMangaRating`: drop the first three words and join the rest with
      single spaces. None stands for the panic of `words[3:]` on fewer
      than three words. */
  function GetMangaRating(rating: string): (r: Option<string>)
    ensures r.None? <==> |Fields(rating)| < 3
    ensures r.Some? ==> Fields(r.value) == Fields(rating)[3..]
    ensures r.Some? ==> r.value == Join(Fields(r.value), " ")
  {
    var words := Fields(rating);
    if |words| < 3 then None
    else
      var rest := words[3..];
      assert forall i :: 0 <= i < |rest| ==> rest[i] == words[i + 3];
      FieldsOfJoin(rest);
      Some(Join(rest, " "))
  }

  /** A rating line built from words by single spaces: fewer than three
      words is the panic, otherwise the words after the third, rejoined. */
  lemma GetMangaRatingOfWords(words: seq<string>)
    requires forall i :: 0 <= i < |words| ==> |words[i]| > 0 && NoSpace(words[i])
    ensures GetMangaRating(Join(words, " ")) == if |words| < 3 then None else Some(Join(words[3..], " "))
  {
    FieldsOfJoin(words);
  }

  /** The worked example of a rating line: the words after the third are kept. */
  lemma GetMangaRatingExample()
    ensures GetMangaRating("Rating : 4.5/5 9 votes") == Some("9 votes")
  {
    var words := ["Rating", ":", "4.5/5", "9", "votes"];
    assert Join(words[3..], " ") == "9 votes";
    assert Join(words[2..], " ") == "4.5/5 9 votes";
    assert Join(words[1..], " ") == ": 4.5/5 9 votes";
    assert Join(words, " ") == "Rating : 4.5/5 9 votes";
    GetMangaRatingOfWords(words);
  }

  /** Exactly three words leave nothing, and fewer is the panic. */
  lemma GetMangaRatingShortLines()
    ensures GetMangaRating("Rating : 4.5") == Some("")
    ensures GetMangaRating("Rating :") == None
  {
    var three := ["Rating", ":", "4.5"];
    assert Join(three[1..], " ") == ": 4.5";
    assert Join(three, " ") == "Rating : 4.5";
    GetMangaRatingOfWords(three);
    var two := ["Rating", ":"];
    assert Join(two, " ") == "Rating :";
    GetMangaRatingOfWords(two);
  }

  /** The description text: newlines trimmed from both ends, then at most
      one leading `Description :\n` removed. */
  function CleanDescription(desc: string): (r: string)
    ensures |r| <= |desc|
    ensures |r| == 0 || r[|r| - 1] != '\n'
  {
    var t := Trim(desc, IsNewline);
    var r := TrimPrefix(t, DescriptionPrefix);
    assert |r| > 0 ==> r[|r| - 1] == t[|t| - 1];
    r
  }

  predicate AllNewlines(s: string) {
    forall k :: 0 <= k < |s| ==> s[k] == '\n'
  }

  /** A description block with its label comes back as its body alone;
      only one label is removed, so a body that itself starts with the
      label keeps it. */
  lemma CleanDescriptionOfLabelled(lead: string, body: string, trail: string)
    requires AllNewlines(lead) && AllNewlines(trail)
    requires |body| > 0 && body[|body| - 1] != '\n'
    ensures CleanDescription(lead + DescriptionPrefix + body + trail) == body
  {
    var m := DescriptionPrefix + body;
    assert lead + DescriptionPrefix + body + trail == lead + m + trail;
    TrimWrapped(lead, m, trail, IsNewline);
    assert m[..|DescriptionPrefix|] == DescriptionPrefix;
  }

  /** Without the label, the description is the text between the newlines. */
  lemma CleanDescriptionOfUnlabelled(lead: string, text: string, trail: string)
    requires AllNewlines(lead) && AllNewlines(trail)
    requires |text| == 0 || (text[0] != '\n' && text[|text| - 1] != '\n')
    requires !HasPrefix(text, DescriptionPrefix)
    ensures CleanDescription(lead + text + trail) == text
  {
    TrimWrapped(lead, text, trail, IsNewline);
  }

  /** The worked example of a scraped description block. */
  lemma CleanDescriptionExample()
    ensures CleanDescription("\nDescription :\nSome text\n") == "Some text"
  {
    assert "\nDescription :\nSome text\n" == "\n" + DescriptionPrefix + "Some text" + "\n";
    CleanDescriptionOfLabelled("\n", "Some text", "\n");
  }

  /** `GetMangaDescription`: writes the cleaned description and nothing else. */
  function GetMangaDescription(desc: string, details: MangaDetails): (r: MangaDetails)
    ensures r.description == CleanDescription(desc)
    ensures r.(description := details.description) == details
  {
    details.(description := CleanDescription(desc))
  }

  /** The `Updated : ... View : ...` split of a search item: both empty when
      the pattern matches nowhere, otherwise the two groups of the reported
      match with surrounding white space trimmed. */
  function SplitUpdatedView(info: string): (r: (string, string))
    ensures (forall p: nat, e: nat :: !Pattern.MatchAt(info, p, e)) ==> r == ("", "")
    ensures forall p: nat, e: nat :: Pattern.IsReported(info, p, e) ==>
      r == (Trim(Pattern.Group1(info, p, e), IsSpace), Trim(Pattern.Group2(info, p, e), IsSpace))
  {
    match Pattern.Submatch(info)
    case None => ("", "")
    case Some((updated, view)) => (Trim(updated, IsSpace), Trim(view, IsSpace))
  }

  /** A well-formed `Updated : u View : v` line whose parts carry no outer
      white space splits back into exactly `u` and `v`. */
  lemma SplitUpdatedViewOfLine(u: string, v: string)
    requires |u| > 0 && |v| > 0
    requires '\n' !in u && '\n' !in v
    requires !IsSpace(u[0]) && !IsSpace(u[|u| - 1]) && !IsSpace(v[0]) && !IsSpace(v[|v| - 1])
    requires forall e: nat :: |Pattern.UpdatedLit| < e < |Pattern.UpdatedLit| + |u| ==>
      !Pattern.ViewAt(Pattern.UpdatedLit + u + Pattern.ViewLit + v, e)
    ensures SplitUpdatedView(Pattern.UpdatedLit + u + Pattern.ViewLit + v) == (u, v)
  {
    Pattern.SubmatchOfLine(u, v);
    TrimKept(u, IsSpace);
    TrimKept(v, IsSpace);
  }

  /** The worked example `Updated : Jan 1View : 100`: the lazy group stops
      at the first `View : `, so the date and the count come apart. */
  lemma SplitUpdatedViewExample()
    ensures SplitUpdatedView("Updated : Jan 1View : 100") == ("Jan 1", "100")
  {
    var s := "Updated : Jan 1View : 100";
    assert s == Pattern.UpdatedLit + "Jan 1" + Pattern.ViewLit + "100";
    forall e: nat | 10 < e < 15 && Pattern.ViewAt(s, e)
      ensures false
    {
      Pattern.ViewAtStartsWithV(s, e);
    }
    SplitUpdatedViewOfLine("Jan 1", "100");
  }

  // ---------------------------------------------------------------------------
  // Last page of the genre listing

  /** One `.pagination li` callback: keep the larger of the running value and a numeric label. */
  function PaginationStep(current: int, text: string): (r: int)
    ensures !Atoi(text).ok ==> r == current
    ensures Atoi(text).ok ==> r >= current && r >= Atoi(text).value
    ensures r == current || (Atoi(text).ok && r == Atoi(text).value)
  {
    var n := Atoi(text);
    if n.ok && n.value > current then n.value else current
  }

  /** The running maximum over the pagination labels, starting from 0: the
      largest label that parses, or 0 when none parses or all are negative. */
  function LabelMax(labels: seq<string>): (r: int)
    ensures r >= 0
    ensures forall i :: 0 <= i < |labels| && Atoi(labels[i]).ok ==> Atoi(labels[i]).value <= r
    ensures r == 0 || exists i :: 0 <= i < |labels| && Atoi(labels[i]).ok && Atoi(labels[i]).value == r
    decreases |labels|
  {
    if |labels| == 0 then 0
    else
      var init := labels[..|labels| - 1];
      var r := PaginationStep(LabelMax(init), labels[|labels| - 1]);
      assert forall i :: 0 <= i < |init| ==> labels[i] == init[i];
      r
  }

  /** The `last_pages` field: the label maximum, unless a last-page link is
      present, in which case the last such link's number overrides it, with
      0 for a link that does not end in a number. */
  function LastPage(page: GenrePage): (r: int)
    ensures |page.lastPageLinks| == 0 ==> r == LabelMax(page.pageLabels)
    ensures |page.lastPageLinks| == 0 ==> r >= 0
    ensures |page.lastPageLinks| == 0 ==>
      forall i :: 0 <= i < |page.pageLabels| && Atoi(page.pageLabels[i]).ok ==> Atoi(page.pageLabels[i]).value <= r
    ensures |page.lastPageLinks| > 0 ==>
      var link := page.lastPageLinks[|page.lastPageLinks| - 1];
      && (IsDecimal(AfterLast(link, '/')) ==> r == Atoi(AfterLast(link, '/')).value)
      && (!IsDecimal(AfterLast(link, '/')) ==> r == 0)
  {
    var current := LabelMax(page.pageLabels);
    if |page.lastPageLinks| == 0 then current
    else ExtractLastPageNumber(page.lastPageLinks[|page.lastPageLinks| - 1]).value
  }

  /** A last-page link decides the result alone: the labels do not matter. */
  lemma LastPageLinkOverrides(items: seq<GenreItem>, labels: seq<string>, labels': seq<string>, links: seq<string>)
    requires |links| > 0
    ensures LastPage(GenrePage(items, labels, links)) == LastPage(GenrePage(items, labels', links))
  {
  }

  // ---------------------------------------------------------------------------
  // URLs

  /** The search URL: the query follows the fixed prefix unchanged. */
  function SearchUrl(query: string): (url: string)
    ensures HasPrefix(url, SearchPrefix) && url[|SearchPrefix|..] == query
  {
    SearchPrefix + query
  }

  /** The chapmanganato.to detail URL of an id. */
  function ChapDetailUrl(id: string): (url: string)
    ensures HasPrefix(url, ChapDetailPrefix) && url[|ChapDetailPrefix|..] == id
  {
    ChapDetailPrefix + id
  }

  /** The manganato.com detail URL of an id. */
  function DetailUrl(id: string): (url: string)
    ensures HasPrefix(url, DetailPrefix) && url[|DetailPrefix|..] == id
  {
    DetailPrefix + id
  }

  /** The fallback URL is never the first URL again: the two hosts differ. */
  lemma DetailUrlsDiffer(id: string, id': string)
    ensures ChapDetailUrl(id) != DetailUrl(id')
  {
    assert ChapDetailUrl(id)[8] != DetailUrl(id')[8];
  }

  /** The three genre listings: all titles, by views, newest first. */
  datatype Sort = All | TopView | Newest

  /** The query of a listing: none for all titles, otherwise a `?type=` query. */
  function SortQuery(sort: Sort): (q: string)
    ensures q == "" <==> sort == All
    ensures q != "" ==> q[0] == '?'
    ensures '/' !in q
  {
    match sort
    case All => ""
    case TopView => "?type=topview"
    case Newest => "?type=newest"
  }

  /** `fmt.Sprintf("https://manganato.com/genre-all/%d...", pageNumber)`. */
  function GenreUrl(pageNumber: int, sort: Sort): (url: string)
    ensures HasPrefix(url, GenreBase + "/")
    ensures |url| >= |GenreBase| + 1 + |SortQuery(sort)|
    ensures url[|url| - |SortQuery(sort)|..] == SortQuery(sort)
    ensures url[|GenreBase| + 1..|url| - |SortQuery(sort)|] == Decimal(pageNumber)
  {
    GenreBase + "/" + Decimal(pageNumber) + SortQuery(sort)
  }

  /** The page number is the last path segment of the plain genre URL, and
      the sorted variants only append a query. */
  lemma GenreUrlCarriesPage(pageNumber: int)
    ensures ExtractLastPageNumber(GenreUrl(pageNumber, All)) == Parsed(pageNumber, true)
    ensures GenreUrl(pageNumber, TopView) == GenreUrl(pageNumber, All) + "?type=topview"
    ensures GenreUrl(pageNumber, Newest) == GenreUrl(pageNumber, All) + "?type=newest"
  {
    assert GenreUrl(pageNumber, All) == GenreBase + "/" + Decimal(pageNumber);
    ExtractLastPageNumberOfLink(GenreBase, pageNumber);
  }

  /** Page 2 of the all-titles and top-view listings, spelled out. */
  lemma GenreUrlOfPageTwo()
    ensures GenreUrl(2, All) == "https://manganato.com/genre-all/2"
    ensures GenreUrl(2, TopView) == "https://manganato.com/genre-all/2?type=topview"
  {
    assert Decimal(2) == "2";
  }

  /** Different page numbers give different URLs for each listing. */
  lemma GenreUrlInjective(p: int, q: int, sort: Sort)
    ensures GenreUrl(p, sort) == GenreUrl(q, sort) ==> p == q
  {
    if GenreUrl(p, sort) == GenreUrl(q, sort) {
      AtoiOfDecimal(p);
      AtoiOfDecimal(q);
    }
  }

  // ---------------------------------------------------------------------------
  // Service operations

  /** `ScrapeMangaData`: the home page's items, with no updated/view text. */
  function ScrapeMangaData(visit: string -> Visit<seq<HomeItem>>): (r: Result<seq<Manga>, Error>)
    ensures visit(HomeUrl).Failed? ==> r == Failure(FetchError(visit(HomeUrl).reason))
    ensures visit(HomeUrl).Loaded? ==> r.Success? && |r.value| == |visit(HomeUrl).page|
    ensures visit(HomeUrl).Loaded? ==> forall i :: 0 <= i < |r.value| ==>
      var item := visit(HomeUrl).page[i];
      var m := r.value[i];
      && IsLastSegment(item.link, '-', m.id)
      && m.name == item.name && m.author == item.author && m.rating == item.rating && m.image == item.image
      && m.updated == "" && m.view == ""
  {
    match visit(HomeUrl)
    case Failed(reason) => Failure(FetchError(reason))
    case Loaded(items) =>
      Success(seq(|items|, i requires 0 <= i < |items| =>
        Manga(ItemId(items[i].link), items[i].name, items[i].author, items[i].rating, items[i].image, "", "")))
  }

  /** `SearchManga`: the query goes into the URL unchanged; each item's
      updated/view text comes from `SplitUpdatedView`. */
  function SearchManga(query: string, visit: string -> Visit<seq<SearchItem>>): (r: Result<seq<Manga>, Error>)
    ensures visit(SearchUrl(query)).Failed? ==> r == Failure(FetchError(visit(SearchUrl(query)).reason))
    ensures visit(SearchUrl(query)).Loaded? ==> r.Success? && |r.value| == |visit(SearchUrl(query)).page|
    ensures visit(SearchUrl(query)).Loaded? ==> forall i :: 0 <= i < |r.value| ==>
      var item := visit(SearchUrl(query)).page[i];
      var m := r.value[i];
      && IsLastSegment(item.link, '-', m.id)
      && m.name == item.name && m.author == item.author && m.rating == item.rating && m.image == item.image
      && (m.updated, m.view) == SplitUpdatedView(item.timeInfo)
  {
    match visit(SearchUrl(query))
    case Failed(reason) => Failure(FetchError(reason))
    case Loaded(items) =>
      Success(seq(|items|, i requires 0 <= i < |items| =>
        var (updated, view) := SplitUpdatedView(items[i].timeInfo);
        Manga(ItemId(items[i].link), items[i].name, items[i].author, items[i].rating, items[i].image, updated, view)))
  }

  /** The titles of a genre listing page, in page order. */
  function GenreMangas(items: seq<GenreItem>): (ms: seq<Manga>)
    ensures |ms| == |items|
    ensures forall i :: 0 <= i < |items| ==>
      && IsLastSegment(items[i].link, '-', ms[i].id)
      && ms[i].name == items[i].name && ms[i].author == items[i].author && ms[i].rating == items[i].rating
      && ms[i].image == items[i].image && ms[i].updated == items[i].updated && ms[i].view == items[i].view
  {
    seq(|items|, i requires 0 <= i < |items| =>
      Manga(ItemId(items[i].link), items[i].name, items[i].author, items[i].rating, items[i].image,
            items[i].updated, items[i].view))
  }

  /** `ScrapeMangaWithPagination`: the requested page is echoed back. */
  function ScrapeMangaWithPagination(pageNumber: int, visit: string -> Visit<GenrePage>): (r: Result<PaginationResponse, Error>)
    ensures visit(GenreUrl(pageNumber, All)).Failed? ==> r == Failure(FetchError(visit(GenreUrl(pageNumber, All)).reason))
    ensures visit(GenreUrl(pageNumber, All)).Loaded? ==>
      var page := visit(GenreUrl(pageNumber, All)).page;
      && r.Success?
      && r.value.currentPage == pageNumber
      && r.value.lastPage == LastPage(page)
      && r.value.mangas == GenreMangas(page.items)
  {
    match visit(GenreUrl(pageNumber, All))
    case Failed(reason) => Failure(FetchError(reason))
    case Loaded(page) => Success(PaginationResponse(pageNumber, LastPage(page), GenreMangas(page.items)))
  }

  /** `ScrapeMangaByTopViewWithPagination`. */
  function ScrapeMangaByTopViewWithPagination(pageNumber: int, visit: string -> Visit<GenrePage>): (r: Result<seq<Manga>, Error>)
    ensures visit(GenreUrl(pageNumber, TopView)).Failed? ==> r == Failure(FetchError(visit(GenreUrl(pageNumber, TopView)).reason))
    ensures visit(GenreUrl(pageNumber, TopView)).Loaded? ==>
      r == Success(GenreMangas(visit(GenreUrl(pageNumber, TopView)).page.items))
  {
    match visit(GenreUrl(pageNumber, TopView))
    case Failed(reason) => Failure(FetchError(reason))
    case Loaded(page) => Success(GenreMangas(page.items))
  }

  /** `ScrapeMangaByNewestWithPagination`. */
  function ScrapeMangaByNewestWithPagination(pageNumber: int, visit: string -> Visit<GenrePage>): (r: Result<seq<Manga>, Error>)
    ensures visit(GenreUrl(pageNumber, Newest)).Failed? ==> r == Failure(FetchError(visit(GenreUrl(pageNumber, Newest)).reason))
    ensures visit(GenreUrl(pageNumber, Newest)).Loaded? ==>
      r == Success(GenreMangas(visit(GenreUrl(pageNumber, Newest)).page.items))
  {
    match visit(GenreUrl(pageNumber, Newest))
    case Failed(reason) => Failure(FetchError(reason))
    case Loaded(page) => Success(GenreMangas(page.items))
  }

  /** The callbacks of `GetMangaByID` run over one loaded detail page.
      None stands for the panic of the rating post-processing. */
  function ExtractDetails(page: DetailPage): (r: Option<MangaDetails>)
    ensures r.None? <==> page.stats.Some? && |Fields(page.stats.value.rateText)| < 3
    ensures r.Some? ==> r.value.description == CleanDescription(page.description)
    ensures r.Some? ==>
      && r.value.name == page.title && r.value.alternativeName == page.alternativeName
      && r.value.author == page.author && r.value.status == page.status
    ensures r.Some? && page.stats.Some? ==>
      r.value.updated == page.stats.value.updated && r.value.view == page.stats.value.view
    ensures r.Some? && page.stats.None? ==> r.value.rating == "" && r.value.updated == "" && r.value.view == ""
    ensures r.Some? && page.stats.Some? ==> Some(r.value.rating) == GetMangaRating(page.stats.value.rateText)
    ensures r.Some? ==> r.value.genre == page.genres && |r.value.chapters| == |page.chapters|
    ensures r.Some? ==> forall i :: 0 <= i < |page.chapters| ==>
      && r.value.chapters[i].title == page.chapters[i].name && r.value.chapters[i].number == page.chapters[i].name
      && r.value.chapters[i].url == page.chapters[i].href && r.value.chapters[i].uploaded == page.chapters[i].time
  {
    var chapters := seq(|page.chapters|, i requires 0 <= i < |page.chapters| =>
      Chapter(page.chapters[i].name, page.chapters[i].name, page.chapters[i].href, page.chapters[i].time));
    var base := MangaDetails(page.title, page.alternativeName, page.author, page.status, "", "", "", "",
                             page.genres, chapters);
    match page.stats
    case None => Some(GetMangaDescription(page.description, base))
    case Some(stats) =>
      match GetMangaRating(stats.rateText)
      case None => None
      case Some(rating) =>
        Some(GetMangaDescription(page.description, base.(updated := stats.updated, view := stats.view, rating := rating)))
  }

  /** What `GetMangaByID` did: the URLs it visited, in order, and its result. */
  datatype DetailFetch = DetailFetch(visited: seq<string>, result: Result<MangaDetails, Error>)

  function Scraped(page: DetailPage): Result<MangaDetails, Error> {
    match ExtractDetails(page)
    case None => Failure(RuntimePanic)
    case Some(details) => Success(details)
  }

  /** `GetMangaByID`: tries the chapmanganato URL, and the manganato URL
      only when that visit fails; fails with the second error when both do. */
  function GetMangaByID(id: string, visit: string -> Visit<DetailPage>): (r: DetailFetch)
    ensures 1 <= |r.visited| <= 2 && r.visited[0] == ChapDetailPrefix + id
    ensures |r.visited| == 2 <==> visit(ChapDetailUrl(id)).Failed?
    ensures |r.visited| == 2 ==> r.visited[1] == DetailPrefix + id
    ensures (r.result.Failure? && r.result.error.FetchError?) <==>
      visit(ChapDetailUrl(id)).Failed? && visit(DetailUrl(id)).Failed?
    ensures visit(ChapDetailUrl(id)).Failed? && visit(DetailUrl(id)).Failed? ==>
      r.result == Failure(FetchError(visit(DetailUrl(id)).reason))
    ensures visit(r.visited[|r.visited| - 1]).Loaded? ==>
      r.result == Scraped(visit(r.visited[|r.visited| - 1]).page)
  {
    match visit(ChapDetailUrl(id))
    case Loaded(page) => DetailFetch([ChapDetailUrl(id)], Scraped(page))
    case Failed(_) =>
      match visit(DetailUrl(id))
      case Loaded(page) => DetailFetch([ChapDetailUrl(id), DetailUrl(id)], Scraped(page))
      case Failed(reason) => DetailFetch([ChapDetailUrl(id), DetailUrl(id)], Failure(FetchError(reason)))
  }
}
