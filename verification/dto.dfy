/** The response shapes of the HTTP layer (package `dto`). */
module Dto {
  import opened Model

  /** A listed title as `/mangas` reports it: `Manga` without `updated` and `view`. */
  datatype MangaResponse = MangaResponse(
    id: string,
    name: string,
    author: string,
    rating: string,
    image: string)

  /** One page of the genre listing with the number of its last page. */
  datatype PaginationResponse = PaginationResponse(currentPage: int, lastPage: int, mangas: seq<Manga>)
}
