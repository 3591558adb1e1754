/** The HTTP handlers of `SetupRouter`, each a function from its request
    parameter and the site oracle to a status and a JSON body. */
module Route {
  import opened Wrappers
  import opened Strings
  import opened Strconv
  import opened Model
  import opened Dto
  import opened Service

  /** The JSON written back. `ErrorBody(m)` is `{"error": m}`; `NoBody` is
      what the recovery middleware of `gin.Default` sends after a panic. */
  datatype Body =
    | ResponseList(responses: seq<MangaResponse>)
    | DetailsBody(details: MangaDetails)
    | MangaList(mangas: seq<Manga>)
    | PageBody(page: PaginationResponse)
    | ErrorBody(message: string)
    | NoBody

  datatype Response = Response(status: int, body: Body)

  const InvalidPageMessage: string := "Invalid page number"
  const FetchDataMessage: string := "Failed to fetch manga data"
  const FetchDetailsMessage: string := "Failed to fetch manga details"
  const SearchMessage: string := "Failed to perform manga search"

  /** The `/mangas` projection: each `Manga` becomes a `MangaResponse`
      with the same id, name, author, rating and image, in the same order. */
  function Project(mangas: seq<Manga>): (responses: seq<MangaResponse>)
    ensures |responses| == |mangas|
    ensures forall i :: 0 <= i < |mangas| ==>
      && responses[i].id == mangas[i].id
      && responses[i].name == mangas[i].name
      && responses[i].author == mangas[i].author
      && responses[i].rating == mangas[i].rating
      && responses[i].image == mangas[i].image
    decreases |mangas|
  {
    if |mangas| == 0 then []
    else
      var m := mangas[0];
      [MangaResponse(m.id, m.name, m.author, m.rating, m.image)] + Project(mangas[1..])
  }

  /** The projection forgets `updated` and `view`: titles that agree on the
      other fields project alike. */
  lemma ProjectIgnoresUpdatedView(a: seq<Manga>, b: seq<Manga>)
    requires |a| == |b|
    requires forall i :: 0 <= i < |a| ==> a[i].(updated := "", view := "") == b[i].(updated := "", view := "")
    ensures Project(a) == Project(b)
    decreases |a|
  {
  }

  /** GET /mangas. */
  function GetMangas(visit: string -> Visit<seq<HomeItem>>): (r: Response)
    ensures r.status == 200 <==> visit(HomeUrl).Loaded?
    ensures r.status != 200 ==> r == Response(500, ErrorBody(FetchDataMessage))
    ensures r.status == 200 ==>
      && r.body.ResponseList?
      && |r.body.responses| == |visit(HomeUrl).page|
      && forall i :: 0 <= i < |r.body.responses| ==>
           IsLastSegment(visit(HomeUrl).page[i].link, '-', r.body.responses[i].id)
    ensures r.status == 200 ==> r.body == ResponseList(Project(ScrapeMangaData(visit).value))
  {
    match ScrapeMangaData(visit)
    case Failure(_) => Response(500, ErrorBody(FetchDataMessage))
    case Success(mangas) => Response(200, ResponseList(Project(mangas)))
  }

  /** GET /mangas/:id. The id goes to the service unchanged. */
  function GetMangaById(id: string, visit: string -> Visit<DetailPage>): (r: Response)
    ensures r.status == 200 || r.status == 500
    ensures r == Response(500, ErrorBody(FetchDetailsMessage)) <==>
      visit(ChapDetailUrl(id)).Failed? && visit(DetailUrl(id)).Failed?
    ensures r.status == 200 <==> GetMangaByID(id, visit).result.Success?
    ensures r.status == 200 ==> r.body == DetailsBody(GetMangaByID(id, visit).result.value)
    ensures GetMangaByID(id, visit).result == Failure(RuntimePanic) ==> r == Response(500, NoBody)
  {
    match GetMangaByID(id, visit).result
    case Failure(FetchError(_)) => Response(500, ErrorBody(FetchDetailsMessage))
    case Failure(RuntimePanic) => Response(500, NoBody)
    case Success(details) => Response(200, DetailsBody(details))
  }

  /** GET /search?query=. The query goes into the search URL unchanged. */
  function GetSearch(query: string, visit: string -> Visit<seq<SearchItem>>): (r: Response)
    ensures r.status == 200 <==> visit(SearchUrl(query)).Loaded?
    ensures r.status != 200 ==> r == Response(500, ErrorBody(SearchMessage))
    ensures r.status == 200 ==>
      r.body == MangaList(SearchManga(query, visit).value)
  {
    match SearchManga(query, visit)
    case Failure(_) => Response(500, ErrorBody(SearchMessage))
    case Success(mangas) => Response(200, MangaList(mangas))
  }

  /** GET /mangas/latest/:page. */
  function GetLatest(page: string, visit: string -> Visit<GenrePage>): (r: Response)
    ensures !Atoi(page).ok ==> r == Response(400, ErrorBody(InvalidPageMessage))
    ensures Atoi(page).ok ==> (r.status == 200 <==> visit(GenreUrl(Atoi(page).value, All)).Loaded?)
    ensures Atoi(page).ok && r.status != 200 ==> r == Response(500, ErrorBody(FetchDataMessage))
    ensures r.status == 200 ==> r.body == PageBody(ScrapeMangaWithPagination(Atoi(page).value, visit).value)
    ensures r.status == 200 ==> r.body.page.currentPage == Atoi(page).value
  {
    var n := Atoi(page);
    if !n.ok then Response(400, ErrorBody(InvalidPageMessage))
    else
      match ScrapeMangaWithPagination(n.value, visit)
      case Failure(_) => Response(500, ErrorBody(FetchDataMessage))
      case Success(pagination) => Response(200, PageBody(pagination))
  }

  /** GET /mangas/hot/:page. */
  function GetHot(page: string, visit: string -> Visit<GenrePage>): (r: Response)
    ensures !Atoi(page).ok ==> r == Response(400, ErrorBody(InvalidPageMessage))
    ensures Atoi(page).ok ==> (r.status == 200 <==> visit(GenreUrl(Atoi(page).value, TopView)).Loaded?)
    ensures Atoi(page).ok && r.status != 200 ==> r == Response(500, ErrorBody(FetchDataMessage))
    ensures r.status == 200 ==>
      r.body == MangaList(GenreMangas(visit(GenreUrl(Atoi(page).value, TopView)).page.items))
  {
    var n := Atoi(page);
    if !n.ok then Response(400, ErrorBody(InvalidPageMessage))
    else
      match ScrapeMangaByTopViewWithPagination(n.value, visit)
      case Failure(_) => Response(500, ErrorBody(FetchDataMessage))
      case Success(mangas) => Response(200, MangaList(mangas))
  }

  /** GET /mangas/newest/:page. */
  function GetNewest(page: string, visit: string -> Visit<GenrePage>): (r: Response)
    ensures !Atoi(page).ok ==> r == Response(400, ErrorBody(InvalidPageMessage))
    ensures Atoi(page).ok ==> (r.status == 200 <==> visit(GenreUrl(Atoi(page).value, Newest)).Loaded?)
    ensures Atoi(page).ok && r.status != 200 ==> r == Response(500, ErrorBody(FetchDataMessage))
    ensures r.status == 200 ==>
      r.body == MangaList(GenreMangas(visit(GenreUrl(Atoi(page).value, Newest)).page.items))
  {
    var n := Atoi(page);
    if !n.ok then Response(400, ErrorBody(InvalidPageMessage))
    else
      match ScrapeMangaByNewestWithPagination(n.value, visit)
      case Failure(_) => Response(500, ErrorBody(FetchDataMessage))
      case Success(mangas) => Response(200, MangaList(mangas))
  }

  /** A page parameter that is not a number is rejected before any page is
      fetched: the response does not depend on the site at all. */
  lemma InvalidPageFetchesNothing(page: string, visit: string -> Visit<GenrePage>, other: string -> Visit<GenrePage>)
    requires !Atoi(page).ok
    ensures GetLatest(page, visit) == GetLatest(page, other)
    ensures GetHot(page, visit) == GetHot(page, other)
    ensures GetNewest(page, visit) == GetNewest(page, other)
  {
  }

  /** `/mangas/latest/:page` reads the site only through the all-titles
      listing of the parsed page: sites that agree on that one URL give the
      same answer, whatever they serve elsewhere. */
  lemma LatestReadsOnlyItsListing(page: string, visit: string -> Visit<GenrePage>, other: string -> Visit<GenrePage>)
    requires Atoi(page).ok ==> visit(GenreUrl(Atoi(page).value, All)) == other(GenreUrl(Atoi(page).value, All))
    ensures GetLatest(page, visit) == GetLatest(page, other)
  {
  }

  /** `/mangas/hot/:page` reads the site only through the top-view listing of the parsed page. */
  lemma HotReadsOnlyItsListing(page: string, visit: string -> Visit<GenrePage>, other: string -> Visit<GenrePage>)
    requires Atoi(page).ok ==> visit(GenreUrl(Atoi(page).value, TopView)) == other(GenreUrl(Atoi(page).value, TopView))
    ensures GetHot(page, visit) == GetHot(page, other)
  {
  }

  /** `/mangas/newest/:page` reads the site only through the newest listing of the parsed page. */
  lemma NewestReadsOnlyItsListing(page: string, visit: string -> Visit<GenrePage>, other: string -> Visit<GenrePage>)
    requires Atoi(page).ok ==> visit(GenreUrl(Atoi(page).value, Newest)) == other(GenreUrl(Atoi(page).value, Newest))
    ensures GetNewest(page, visit) == GetNewest(page, other)
  {
  }

  /** `/mangas/latest` answers with the whole pagination record whose page
      is the one requested, where hot and newest answer with the bare list. */
  lemma LatestEchoesPage(n: int, visit: string -> Visit<GenrePage>)
    requires visit(GenreUrl(n, All)).Loaded?
    ensures GetLatest(Decimal(n), visit).status == 200
    ensures GetLatest(Decimal(n), visit).body.page.currentPage == n
    ensures GetLatest(Decimal(n), visit).body.page.lastPage == LastPage(visit(GenreUrl(n, All)).page)
  {
  }
}
