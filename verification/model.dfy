/** The records the scraper fills in (package `model`). Every field is display
    text taken from the page; lists keep document order. */
module Model {

  /** A title as it appears in a listing. */
  datatype Manga = Manga(
    id: string,
    name: string,
    author: string,
    rating: string,
    image: string,
    updated: string,
    view: string)

  /** One row of a title's chapter list. */
  datatype Chapter = Chapter(title: string, number: string, url: string, uploaded: string)

  /** Everything the detail page says about one title. */
  datatype MangaDetails = MangaDetails(
    name: string,
    alternativeName: string,
    author: string,
    status: string,
    updated: string,
    view: string,
    rating: string,
    description: string,
    genre: seq<string>,
    chapters: seq<Chapter>)
}
