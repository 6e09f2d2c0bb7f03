/** The catalog records returned by the movie metadata API (types/movie.ts). */
module Types {
  import opened Wrappers

  /** A genre: numeric id and display name. */
  datatype Genre = Genre(id: int, name: string)

  /** A catalog record. `id` is the only identity key. `genre_ids` appears on
      list responses and `genres` only on the detail response. The rating is
      kept as a `real`; no operation here computes with it. */
  datatype Movie = Movie(
    id: int,
    title: string,
    overview: string,
    poster_path: string,
    backdrop_path: string,
    release_date: string,
    vote_average: real,
    genre_ids: Option<seq<int>>,
    genres: Option<seq<Genre>>,
    runtime: Option<int>,
    status: Option<string>,
    tagline: Option<string>)

  /** One page of a paginated list endpoint. */
  datatype MovieResponse = MovieResponse(
    page: int,
    results: seq<Movie>,
    total_pages: int,
    total_results: int)

  /** The genre catalog response. */
  datatype GenreResponse = GenreResponse(genres: seq<Genre>)
}
