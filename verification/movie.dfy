/** The movie catalog entities of `types/movie.ts`. */
module MovieTypes {
  import opened Wrappers

  /** The category a movie is listed under: `'now_playing' | 'popular' | 'top_rated' | 'upcoming'`. */
  datatype MovieCategory = NowPlaying | Popular | TopRated | Upcoming

  /** The user's category lens: one category, or `'all'`, which never tags a movie. */
  datatype CategoryFilter = All | Only(category: MovieCategory)

  /** One movie. The optional fields of the source are `Option`s; `id` is a JavaScript number
      and is modelled as an integer. */
  datatype Movie = Movie(
    id: int,
    title: string,
    overview: string,
    posterUrl: string,
    backdropUrl: Option<string>,
    contentRating: Option<string>,
    releaseDate: string,
    genreIds: seq<int>,
    genres: seq<string>,
    category: MovieCategory,
    storeUrl: Option<string>)
}
