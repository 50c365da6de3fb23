/** The movie store of `store/movie-context.tsx`: its state, the reducer, the filtered view and
    the fetch sequence, with the React wiring stripped away. */
module MovieStore {
  import opened Wrappers
  import opened Seqs
  import opened Text
  import opened MovieTypes

  /** The store's snapshot. `error` is `string | null`. */
  datatype State = State(
    movies: seq<Movie>,
    loading: bool,
    refreshing: bool,
    error: Option<string>,
    activeCategory: CategoryFilter,
    searchQuery: string)

  /** The six actions `dispatch` accepts; each carries the new value of one field. */
  datatype Action =
    | SetLoading(loading: bool)
    | SetRefreshing(refreshing: bool)
    | SetMovies(movies: seq<Movie>)
    | SetError(error: Option<string>)
    | SetCategory(category: CategoryFilter)
    | SetSearch(query: string)

  /** Names of the six fields of `State`. */
  datatype Field = MoviesField | LoadingField | RefreshingField | ErrorField | CategoryField | SearchField

  /** The field an action writes. */
  function Target(a: Action): Field
  {
    match a
    case SetLoading(_) => LoadingField
    case SetRefreshing(_) => RefreshingField
    case SetMovies(_) => MoviesField
    case SetError(_) => ErrorField
    case SetCategory(_) => CategoryField
    case SetSearch(_) => SearchField
  }

  /** `s` and `t` hold the same value in field `f`. */
  predicate Agree(s: State, t: State, f: Field)
  {
    match f
    case MoviesField => s.movies == t.movies
    case LoadingField => s.loading == t.loading
    case RefreshingField => s.refreshing == t.refreshing
    case ErrorField => s.error == t.error
    case CategoryField => s.activeCategory == t.activeCategory
    case SearchField => s.searchQuery == t.searchQuery
  }

  /** `t` holds the payload of `a` in the field `a` targets. */
  predicate Carries(t: State, a: Action)
  {
    match a
    case SetLoading(b) => t.loading == b
    case SetRefreshing(b) => t.refreshing == b
    case SetMovies(ms) => t.movies == ms
    case SetError(e) => t.error == e
    case SetCategory(c) => t.activeCategory == c
    case SetSearch(q) => t.searchQuery == q
  }

  /** The snapshot the store starts from. */
  const InitialState: State := State([], false, false, None, All, "")

  /** The reducer: a record copy of `s` with the targeted field replaced by the payload.
      The source's `default` branch is unreachable, as `Action` is closed. */
  function Reduce(s: State, a: Action): (r: State)
    ensures Carries(r, a)
    ensures forall f :: f != Target(a) ==> Agree(s, r, f)
  {
    match a
    case SetLoading(b) => s.(loading := b)
    case SetRefreshing(b) => s.(refreshing := b)
    case SetMovies(ms) => s.(movies := ms)
    case SetError(e) => s.(error := e)
    case SetCategory(c) => s.(activeCategory := c)
    case SetSearch(q) => s.(searchQuery := q)
  }

  /** The reducer's result is the one state that carries the payload and agrees with `s` on
      every other field. */
  lemma ReduceCharacterized(s: State, a: Action, t: State)
    ensures t == Reduce(s, a) <==> Carries(t, a) && forall f :: f != Target(a) ==> Agree(s, t, f)
  {
    if Carries(t, a) && forall f :: f != Target(a) ==> Agree(s, t, f) {
      var r := Reduce(s, a);
      forall f: Field
        ensures Agree(r, t, f)
      {
        if f != Target(a) {
          assert Agree(s, t, f) && Agree(s, r, f);
        }
      }
      assert Agree(r, t, MoviesField) && Agree(r, t, LoadingField) && Agree(r, t, RefreshingField);
      assert Agree(r, t, ErrorField) && Agree(r, t, CategoryField) && Agree(r, t, SearchField);
    }
  }

  /** Dispatching the same action twice is dispatching it once. */
  lemma ReduceIdempotent(s: State, a: Action)
    ensures Reduce(Reduce(s, a), a) == Reduce(s, a)
  {
  }

  /** Of two actions on the same field, the later one wins. */
  lemma ReduceLastWriteWins(s: State, a: Action, b: Action)
    requires Target(a) == Target(b)
    ensures Reduce(Reduce(s, a), b) == Reduce(s, b)
  {
  }

  /** Actions on different fields commute. */
  lemma ReduceCommutes(s: State, a: Action, b: Action)
    requires Target(a) != Target(b)
    ensures Reduce(Reduce(s, a), b) == Reduce(Reduce(s, b), a)
  {
  }

  /** No action in `actions` writes field `f`. */
  predicate Untouched(actions: seq<Action>, f: Field)
  {
    forall i :: 0 <= i < |actions| ==> Target(actions[i]) != f
  }

  /** Dispatches `actions` in order, starting from `s`. */
  function Run(s: State, actions: seq<Action>): (r: State)
    ensures forall f :: Untouched(actions, f) ==> Agree(s, r, f)
    ensures |actions| > 0 ==> Carries(r, actions[|actions| - 1])
    decreases |actions|
  {
    if |actions| == 0 then s
    else
      var r := Run(Reduce(s, actions[0]), actions[1..]);
      assert forall f :: Untouched(actions, f) ==> Untouched(actions[1..], f);
      assert |actions| > 1 ==> actions[1..][|actions[1..]| - 1] == actions[|actions| - 1];
      r
  }

  /** Dispatching `a ++ b` is dispatching `a`, then `b`. */
  lemma {:induction false} RunAppend(s: State, a: seq<Action>, b: seq<Action>)
    ensures Run(s, a + b) == Run(Run(s, a), b)
    decreases |a|
  {
    if |a| > 0 {
      assert (a + b)[0] == a[0];
      assert (a + b)[1..] == a[1..] + b;
      RunAppend(Reduce(s, a[0]), a[1..], b);
    } else {
      assert a + b == b;
    }
  }

  /** Dispatching two actions is reducing by the first, then by the second. */
  lemma RunTwo(s: State, a: Action, b: Action)
    ensures Run(s, [a, b]) == Reduce(Reduce(s, a), b)
  {
    assert [a, b][0] == a && [a, b][1..] == [b];
    assert [b][0] == b && [b][1..] == [];
    assert Run(s, [a, b]) == Run(Reduce(s, a), [b]);
    assert Run(Reduce(s, a), [b]) == Run(Reduce(Reduce(s, a), b), []);
  }

  /** Dispatching three actions is reducing by each in turn. */
  lemma RunThree(s: State, a: Action, b: Action, c: Action)
    ensures Run(s, [a, b, c]) == Reduce(Reduce(Reduce(s, a), b), c)
  {
    assert [a, b, c][0] == a && [a, b, c][1..] == [b, c];
    RunTwo(Reduce(s, a), b, c);
  }

  /** The dispatches `fetchMovies` makes before its delay: raise the busy flag, clear the error. */
  function BeginFetch(isRefresh: bool): seq<Action>
  {
    [if isRefresh then SetRefreshing(true) else SetLoading(true), SetError(None)]
  }

  /** The dispatches `fetchMovies` makes after its delay: install the catalog, lower both flags. */
  function CompleteFetch(catalog: seq<Movie>): seq<Action>
  {
    [SetMovies(catalog), SetLoading(false), SetRefreshing(false)]
  }

  /** The state while `fetchMovies` awaits its delay: the spinner for the kind of fetch is on,
      the error is cleared and nothing else has changed. */
  function FetchPending(s: State, isRefresh: bool): (r: State)
    ensures isRefresh ==> r.refreshing && r.loading == s.loading
    ensures !isRefresh ==> r.loading && r.refreshing == s.refreshing
    ensures r.error == None
    ensures r.movies == s.movies
    ensures r.activeCategory == s.activeCategory && r.searchQuery == s.searchQuery
  {
    RunTwo(s, BeginFetch(isRefresh)[0], SetError(None));
    Run(s, BeginFetch(isRefresh))
  }

  /** `fetchMovies(isRefresh)` run to completion, with `catalog` standing for the bundled
      `MOVIES` dataset: from any state, the catalog is installed, both spinners are off, the
      error is cleared, and the user's category and search are kept. */
  function FetchMovies(s: State, isRefresh: bool, catalog: seq<Movie>): (r: State)
    ensures r.movies == catalog
    ensures !r.loading && !r.refreshing && r.error == None
    ensures r.activeCategory == s.activeCategory && r.searchQuery == s.searchQuery
  {
    RunAppend(s, BeginFetch(isRefresh), CompleteFetch(catalog));
    RunThree(FetchPending(s, isRefresh), SetMovies(catalog), SetLoading(false), SetRefreshing(false));
    Run(s, BeginFetch(isRefresh) + CompleteFetch(catalog))
  }

  /** The fetch passes through its pending state: completing it from there gives the same result. */
  lemma FetchMoviesThroughPending(s: State, isRefresh: bool, catalog: seq<Movie>)
    ensures FetchMovies(s, isRefresh, catalog) == Run(FetchPending(s, isRefresh), CompleteFetch(catalog))
  {
    RunAppend(s, BeginFetch(isRefresh), CompleteFetch(catalog));
  }

  /** The three dispatches after the delay, from whatever state the store is in by then (the UI
      may have dispatched other actions during the delay): the catalog is installed and both
      spinners are off, while the error, category and search are left as they were. */
  lemma CompleteFetchFromAny(t: State, catalog: seq<Movie>)
    ensures Run(t, CompleteFetch(catalog)).movies == catalog
    ensures !Run(t, CompleteFetch(catalog)).loading && !Run(t, CompleteFetch(catalog)).refreshing
    ensures Run(t, CompleteFetch(catalog)).error == t.error
    ensures Run(t, CompleteFetch(catalog)).activeCategory == t.activeCategory
    ensures Run(t, CompleteFetch(catalog)).searchQuery == t.searchQuery
  {
    RunThree(t, SetMovies(catalog), SetLoading(false), SetRefreshing(false));
  }

  /** A fetch with the actions `during` dispatched while it awaits its delay: it ends with the
      catalog installed and both spinners off; the error, category and search are whatever the
      pending state followed by `during` left them as, so a search typed during the delay is
      kept. With no actions during the delay this is `FetchMovies`. */
  lemma FetchInterleaved(s: State, isRefresh: bool, during: seq<Action>, catalog: seq<Movie>)
    ensures var t := Run(FetchPending(s, isRefresh), during);
            var r := Run(s, BeginFetch(isRefresh) + during + CompleteFetch(catalog));
            && r.movies == catalog && !r.loading && !r.refreshing
            && r.error == t.error && r.activeCategory == t.activeCategory && r.searchQuery == t.searchQuery
    ensures during == [] ==> Run(s, BeginFetch(isRefresh) + during + CompleteFetch(catalog)) == FetchMovies(s, isRefresh, catalog)
  {
    var t := Run(FetchPending(s, isRefresh), during);
    RunAppend(s, BeginFetch(isRefresh) + during, CompleteFetch(catalog));
    RunAppend(s, BeginFetch(isRefresh), during);
    CompleteFetchFromAny(t, catalog);
    if during == [] {
      assert BeginFetch(isRefresh) + during == BeginFetch(isRefresh);
    }
  }

  /** The store starts with no movies, no spinner, no error, the `'all'` lens and an empty
      search, so its first view is empty. */
  lemma InitialStateIsEmpty()
    ensures InitialState.movies == [] && FilteredMovies(InitialState) == []
    ensures !InitialState.loading && !InitialState.refreshing && InitialState.error == None
    ensures InitialState.activeCategory == All && InitialState.searchQuery == ""
  {
  }

  /** A second fetch of the same catalog, refresh or not, changes nothing. */
  lemma FetchMoviesIdempotent(s: State, first: bool, second: bool, catalog: seq<Movie>)
    ensures FetchMovies(FetchMovies(s, first, catalog), second, catalog) == FetchMovies(s, first, catalog)
  {
  }

  /** `m` passes the category lens: `'all'` or an exact match. */
  predicate MatchesCategory(m: Movie, filter: CategoryFilter)
  {
    filter.All? || m.category == filter.category
  }

  /** `m` passes the search: an empty lower-cased query, or the lower-cased query occurs in the
      lower-cased title, overview or one of the genres. */
  predicate MatchesSearch(m: Movie, query: string)
  {
    var q := Lower(query);
    || |q| == 0
    || Includes(Lower(m.title), q)
    || Includes(Lower(m.overview), q)
    || exists i :: 0 <= i < |m.genres| && Includes(Lower(m.genres[i]), q)
  }

  /** The predicate the filtered view applies to each movie of state `s`. */
  predicate Visible(s: State, m: Movie)
  {
    MatchesCategory(m, s.activeCategory) && MatchesSearch(m, s.searchQuery)
  }

  /** The `filteredMovies` view: the movies of `s` that pass both the category lens and the
      search, in their original order. */
  function FilteredMovies(s: State): (r: seq<Movie>)
    ensures forall m :: m in r <==> m in s.movies && Visible(s, m)
    ensures forall m :: multiset(r)[m] == if Visible(s, m) then multiset(s.movies)[m] else 0
    ensures s.activeCategory.Only? ==> forall m :: m in r ==> m.category == s.activeCategory.category
    ensures IsSubsequence(r, s.movies)
  {
    FilterIsSubsequence(m => Visible(s, m), s.movies);
    Filter(m => Visible(s, m), s.movies)
  }

  /** The view is an order-preserving selection of exactly the visible positions of `movies`. */
  lemma FilteredMoviesSelectsVisible(s: State) returns (idx: seq<nat>)
    ensures IsEmbedding(FilteredMovies(s), s.movies, idx)
    ensures forall i :: 0 <= i < |s.movies| ==> (Visible(s, s.movies[i]) <==> i in idx)
  {
    idx := FilterIsKeptSubsequence(m => Visible(s, m), s.movies);
  }

  /** With the `'all'` lens and an empty search the view is the whole list, in order. */
  lemma FilteredMoviesShowsAll(s: State)
    requires s.activeCategory == All && s.searchQuery == ""
    ensures FilteredMovies(s) == s.movies
  {
    FilterKeepsAll(m => Visible(s, m), s.movies);
  }

  /** Filtering the filtered list again changes nothing. */
  lemma FilteredMoviesIdempotent(s: State)
    ensures FilteredMovies(s.(movies := FilteredMovies(s))) == FilteredMovies(s)
  {
    var t := s.(movies := FilteredMovies(s));
    FilterCongruent(m => Visible(t, m), m => Visible(s, m), t.movies);
    FilterIdempotent(m => Visible(s, m), s.movies);
  }

  /** The texts the search looks into: title, overview, then each genre. */
  function SearchFields(m: Movie): seq<string>
  {
    [m.title, m.overview] + m.genres
  }

  /** The searched text at position `k` contains the lower-cased query `q`, at position `i`. */
  predicate FieldOccurrence(m: Movie, q: string, k: int, i: int)
  {
    0 <= k < |SearchFields(m)| && OccursAt(Lower(SearchFields(m)[k]), q, i)
  }

  /** A matching non-empty search has an occurrence in some searched text. */
  lemma MatchingSearchOccurs(m: Movie, query: string) returns (k: int, i: int)
    requires query != "" && MatchesSearch(m, query)
    ensures FieldOccurrence(m, Lower(query), k, i)
  {
    var q := Lower(query);
    var fields := SearchFields(m);
    if Includes(Lower(m.title), q) {
      k := 0;
    } else if Includes(Lower(m.overview), q) {
      k := 1;
    } else {
      var j :| 0 <= j < |m.genres| && Includes(Lower(m.genres[j]), q);
      k := j + 2;
      assert fields[k] == m.genres[j];
    }
    assert Includes(Lower(fields[k]), q);
    i :| OccursAt(Lower(fields[k]), q, i);
  }

  /** An occurrence in some searched text makes the search match. */
  lemma OccurrenceMatchesSearch(m: Movie, query: string, k: int, i: int)
    requires FieldOccurrence(m, Lower(query), k, i)
    ensures MatchesSearch(m, query)
  {
    var q := Lower(query);
    var fields := SearchFields(m);
    assert Includes(Lower(fields[k]), q);
    if k >= 2 {
      assert fields[k] == m.genres[k - 2];
    }
  }

  /** A non-empty search matches exactly when the lower-cased query occurs, at some position, in
      the lower-cased form of one of the searched texts. */
  lemma MatchesSearchByOccurrence(m: Movie, query: string)
    requires query != ""
    ensures MatchesSearch(m, query) <==> exists k, i :: FieldOccurrence(m, Lower(query), k, i)
  {
    var q := Lower(query);
    if MatchesSearch(m, query) {
      var k, i := MatchingSearchOccurs(m, query);
      assert FieldOccurrence(m, q, k, i);
    } else {
      forall k, i
        ensures !FieldOccurrence(m, q, k, i)
      {
        if FieldOccurrence(m, q, k, i) {
          OccurrenceMatchesSearch(m, query, k, i);
        }
      }
    }
  }

  /** Search ignores case: queries with the same lower-case form give the same view. */
  lemma SearchIgnoresCase(s: State, q1: string, q2: string)
    requires Lower(q1) == Lower(q2)
    ensures FilteredMovies(s.(searchQuery := q1)) == FilteredMovies(s.(searchQuery := q2))
  {
    var s1 := s.(searchQuery := q1);
    var s2 := s.(searchQuery := q2);
    FilterCongruent(m => Visible(s1, m), m => Visible(s2, m), s.movies);
  }

  /** Store creation runs one `fetchMovies()`: while it waits, the first-load spinner is on over an
      empty list; afterwards the whole catalog is shown, with no spinner and no error. */
  lemma MountShowsCatalog(catalog: seq<Movie>)
    ensures FetchPending(InitialState, false).loading && FetchPending(InitialState, false).movies == []
    ensures !FetchPending(InitialState, false).refreshing
    ensures FilteredMovies(FetchMovies(InitialState, false, catalog)) == catalog
    ensures FetchMovies(InitialState, false, catalog).error == None
  {
    FilteredMoviesShowsAll(FetchMovies(InitialState, false, catalog));
  }

  /** A sample movie: "Nova", a popular science-fiction and war film. */
  const Nova: Movie := Movie(5, "Nova", "A ship drifts home.", "nova.jpg", None, None,
                             "2024-01-01", [878, 10752], ["Sci-Fi", "War"], Popular, None)

  /** The query "WAR" finds the genre "War". */
  lemma SearchWarFindsWarGenre(s: State)
    requires s.movies == [Nova] && s.activeCategory == All && s.searchQuery == "WAR"
    ensures FilteredMovies(s) == [Nova]
  {
    var q := Lower(s.searchQuery);
    assert q == "war";
    var genre := SearchFields(Nova)[3];
    assert genre == "War";
    assert Lower(genre) == "war";
    assert OccursAt(Lower(genre), q, 0);
    OccurrenceMatchesSearch(Nova, s.searchQuery, 3, 0);
    FilterKeepsAll(m => Visible(s, m), s.movies);
  }

  /** The category lenses split the `'all'` view: with the same search, a movie is in the
      `'all'` view exactly when it is in the view of its own category, and in no other
      category's view. */
  lemma CategoryLensesSplitAll(s: State, m: Movie)
    ensures m in FilteredMovies(s.(activeCategory := All))
            <==> m in FilteredMovies(s.(activeCategory := Only(m.category)))
    ensures forall c :: c != m.category ==> m !in FilteredMovies(s.(activeCategory := Only(c)))
  {
  }

  /** The `'top_rated'` lens hides a popular movie; the `'popular'` lens shows it. */
  lemma CategoryLensExample(s: State)
    requires s.movies == [Nova] && s.searchQuery == ""
    ensures FilteredMovies(s.(activeCategory := Only(TopRated))) == []
    ensures FilteredMovies(s.(activeCategory := Only(Popular))) == [Nova]
  {
    FilterKeepsAll(m => Visible(s.(activeCategory := Only(Popular)), m), s.movies);
  }
}
