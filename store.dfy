/**
  The movie table the scripts read and write (`movies_douban.xlsx`,
  `movies_common.xlsx`, `tags.xlsx`), as an ordered sequence of records with
  optional cells. A `None` cell is a pandas NaN or a missing value. The
  rating is kept as the cell's text: its float parse is not modelled.
*/
module Store {
  import opened Common

  datatype Movie = Movie(
    id: Option<string>,
    title: Option<string>,
    link: Option<string>,
    date: Option<string>,
    rating: Option<string>,
    posterUrl: Option<string>,
    genres: Option<string>,
    language: Option<string>,
    imdbId: Option<string>,
    imdbTags: Option<string>,
    tags: Option<string>,
    runtime: Option<int>)
}
