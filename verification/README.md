# Movie store and restaurant photo selector, in Dafny

This project models the two pure cores of a React Native browsing app for movies and restaurants.

* **The movie store** (`store/movie-context.tsx`). Its `State` holds the catalog, the
  `loading`/`refreshing` spinners, an `error`, the active category lens and the search text.
  A six-action reducer replaces one field per action. `fetchMovies` is a fixed sequence of
  dispatches that installs the bundled `MOVIES` catalog. `filteredMovies` is the derived view:
  a category lens (`'all'` or an exact category) combined with a case-insensitive substring
  search over title, overview and genres.
* **The fallback photo selector** (`utils/restaurant-photos.ts`). A restaurant with a provider
  photo URL keeps it. Otherwise a base-31 rolling hash of its place identifier, masked to 24
  bits, picks an entry from a curated pool chosen by the restaurant's type.

Modules, one per concern:

| file | module | what it holds |
|---|---|---|
| `wrappers.dfy` | `Wrappers` | `Option`, for `null` / `undefined` / optional fields |
| `seqs.dfy` | `Seqs` | `Array.prototype.filter` as `Filter`, and what "order-preserving subsequence" means |
| `text.dfy` | `Text` | `toLowerCase`, `includes`, and the UTF-16 code units `charCodeAt` reads |
| `js_number.dfy` | `JsNumber` | JavaScript `&` (ToInt32 on both operands, then a 32-bit AND) and `Math.abs` on integers |
| `movie.dfy` | `MovieTypes` | `MovieCategory`, `CategoryFilter`, `Movie` of `types/movie.ts` |
| `movie_store.dfy` | `MovieStore` | state, actions, reducer, dispatch sequences, `fetchMovies`, `filteredMovies` |
| `restaurant.dfy` | `RestaurantTypes` | `RestaurantType` and the fields of `Restaurant` the selector reads |
| `restaurant_photos.dfy` | `RestaurantPhotos` | the three pools, `hashString`, `pickFrom`, `getRestaurantPhoto` |

Modelling choices:

* Each store action is a `Reduce` step. A sequence of dispatches is `Run`. `fetchMovies` is
  `Run` over its five dispatches, split at the `await`: `FetchPending` is the state the UI
  renders during the delay, and `FetchMovies` is the state once an uninterrupted fetch
  completes. The UI can dispatch actions (a new search, another category) during the delay;
  `FetchInterleaved` covers any such actions, and `CompleteFetchFromAny` states what the
  three completing dispatches do from whatever state they meet.
* The bundled `MOVIES` dataset is not part of this model. Every fetch takes the catalog as a
  parameter `catalog: seq<Movie>`.
* JavaScript strings are modelled as Dafny `string`s, which hold Unicode scalar values (see
  "Left out" for the strings this excludes). `charCodeAt` reads UTF-16 code units, so the hash runs over `Utf16(s)`, where characters above U+FFFF
  become surrogate pairs.
* `&` is modelled exactly as JavaScript does it on integers. Both operands go through ToInt32,
  their 32-bit patterns are AND-ed bit by bit (`AndBits`), and the result is read back as a
  signed 32-bit value. `MaskIsMod` proves that `x & 0xffffff` equals `x mod 2^24` for every
  integer `x`.
* The TypeScript field `type` of `Restaurant` is called `kind`, because `type` is a Dafny
  keyword. The string value `'restaurant'` of `RestaurantType` is the constructor `Dining`.
* `fetchMovies` makes no network call; it always installs `MOVIES` and only ever sets `error`
  to null.

## Model

| member | source | states |
|---|---|---|
| MovieStore.Reduce | store/movie-context.tsx:40-50 | the new state carries the action's payload in the field the action targets and agrees with the old state on the other five fields |
| MovieStore.ReduceCharacterized | store/movie-context.tsx:40-50 | a state equals the reducer's result exactly when it carries the payload and agrees with the old state on every untargeted field (both directions) |
| MovieStore.ReduceIdempotent | store/movie-context.tsx:42-47 | dispatching the same action twice gives the state that dispatching it once gives |
| MovieStore.ReduceLastWriteWins | store/movie-context.tsx:42-47 | of two actions on the same field, only the later one is visible |
| MovieStore.ReduceCommutes | store/movie-context.tsx:42-47 | actions on different fields may be dispatched in either order |
| MovieStore.Run | store/movie-context.tsx:64-76 | after a sequence of dispatches, every field no action writes keeps its value, and the last action's payload is in place |
| MovieStore.RunAppend | store/movie-context.tsx:66-76 | dispatching a concatenation is dispatching the first part, then the second |
| MovieStore.FetchPending | store/movie-context.tsx:66-71 | during the delay the spinner of the requested kind is on, the other spinner is untouched, the error is cleared, and movies, category and search are unchanged |
| MovieStore.FetchMovies | store/movie-context.tsx:66-76 | from any state, a completed fetch installs the catalog, turns both spinners off, clears the error, and keeps category and search |
| MovieStore.CompleteFetchFromAny | store/movie-context.tsx:73-75 | from any state, the three dispatches after the delay install the catalog and turn both spinners off, leaving error, category and search as they found them |
| MovieStore.FetchInterleaved | store/movie-context.tsx:66-76 | with any actions dispatched during the delay, the fetch still ends with the catalog installed and both spinners off, and keeps the error, category and search those actions left; with none it is the uninterrupted fetch |
| MovieStore.FetchMoviesThroughPending | store/movie-context.tsx:66-76 | the completed fetch is the pending state followed by the three completing dispatches |
| MovieStore.FetchMoviesIdempotent | store/movie-context.tsx:66-76 | fetching the same catalog again, as a refresh or not, changes nothing |
| MovieStore.InitialStateIsEmpty | store/movie-context.tsx:31-38 | the initial state has no movies, both spinners off, no error, the `'all'` lens and an empty search, so its view is empty |
| MovieStore.MountShowsCatalog | store/movie-context.tsx:31-78 | from the initial state, the mount-time fetch shows the first-load spinner over an empty list, then ends with the whole catalog visible and no error |
| MovieStore.FilteredMovies | store/movie-context.tsx:80-89 | a movie is in the view exactly when it is in the list and passes both the category lens and the search; it appears as often as in the list; with a category lens every shown movie has that category; the view is an order-preserving subsequence of the list |
| MovieStore.FilteredMoviesSelectsVisible | store/movie-context.tsx:80-89 | the view is the list's visible positions taken in increasing order: an order-preserving subsequence that drops exactly the non-visible movies |
| MovieStore.FilteredMoviesShowsAll | store/movie-context.tsx:80-89 | with the `'all'` lens and an empty search the view is the whole list in its order |
| MovieStore.FilteredMoviesIdempotent | store/movie-context.tsx:80-89 | filtering the filtered list again gives the same list |
| MovieStore.CategoryLensesSplitAll | store/movie-context.tsx:80-81 | with the same search, a movie is in the `'all'` view exactly when it is in its own category's view, and it is in no other category's view |
| MovieStore.MatchesSearchByOccurrence | store/movie-context.tsx:82-87 | a non-empty search matches exactly when the lower-cased query occurs at some position in the lower-cased title, overview or some genre (both directions) |
| MovieStore.SearchIgnoresCase | store/movie-context.tsx:82-87 | two queries with the same lower-case form give the same view |
| MovieStore.SearchWarFindsWarGenre | store/movie-context.tsx:82-87 | the query "WAR" shows a movie whose genres include "War" |
| MovieStore.CategoryLensExample | store/movie-context.tsx:81 | the `'top_rated'` lens hides a popular movie and the `'popular'` lens shows it |
| Seqs.Filter | store/movie-context.tsx:80 | filtering keeps exactly the elements that pass, each as often as it occurs, and never lengthens the list |
| Seqs.FilterIsKeptSubsequence | store/movie-context.tsx:80 | the filtered list is spelled out by an increasing list of positions that holds exactly the passing positions |
| Seqs.FilterKeepsAll | store/movie-context.tsx:80 | when every element passes, filtering returns the list unchanged |
| Seqs.FilterCongruent | store/movie-context.tsx:80 | predicates that agree on the list's elements filter it identically |
| Text.Lower | store/movie-context.tsx:82 | lower-casing keeps the length and lower-cases each character, mapping only `A`-`Z` |
| Text.LowerIdempotent | store/movie-context.tsx:82 | lower-casing a lower-cased string changes nothing |
| Text.Includes | store/movie-context.tsx:85-87 | `includes` is true exactly when the needle occurs at some position of the haystack |
| Text.IncludesEmpty | store/movie-context.tsx:84-87 | the empty query occurs in every string |
| Text.EncodeChar | utils/restaurant-photos.ts:32 | a character in the Basic Multilingual Plane is one code unit equal to it; any other character is a surrogate pair that decodes back to it |
| Text.Utf16 | utils/restaurant-photos.ts:31-32 | the code units `charCodeAt` reads: at least one and at most two per character |
| Text.Utf16Bmp | utils/restaurant-photos.ts:31-32 | for a string inside the Basic Multilingual Plane, `charCodeAt(i)` is the i-th character's code |
| JsNumber.BitAnd | utils/restaurant-photos.ts:32 | JavaScript `&`: ToInt32 on both operands, a 32-bit AND, read back as a signed 32-bit value, so the result is in `[-2^31, 2^31)` |
| JsNumber.AndLowMask | utils/restaurant-photos.ts:32 | AND-ing with a mask of k low one-bits keeps the residue modulo 2^k |
| JsNumber.MaskIsMod | utils/restaurant-photos.ts:32 | `x & 0xffffff` equals `x mod 2^24` for every integer `x` |
| RestaurantPhotos.HashStep | utils/restaurant-photos.ts:32 | one loop step `((h * 31) + c) & 0xffffff` yields a value in `[0, 2^24)`, whatever `h` is |
| RestaurantPhotos.HashStepIsMod | utils/restaurant-photos.ts:32 | one loop step `((h*31)+c) & 0xffffff` is `(h*31 + c) mod 2^24` |
| RestaurantPhotos.HashUnits | utils/restaurant-photos.ts:30-33 | the loop variable stays in `[0, 2^24)` |
| RestaurantPhotos.HashString | utils/restaurant-photos.ts:29-35 | the hash lies in `[0, 2^24)`, and the empty string hashes to 0 |
| RestaurantPhotos.AbsIsNoOp | utils/restaurant-photos.ts:34 | `Math.abs` returns the loop result unchanged |
| RestaurantPhotos.HashIsPolynomialMod | utils/restaurant-photos.ts:29-35 | the hash is the polynomial `c0*31^(n-1) + ... + c(n-1)` over the code units, reduced modulo 2^24 |
| RestaurantPhotos.HashExample | utils/restaurant-photos.ts:29-54 | "ab" hashes to 3105, and a cafe "ab" without a photo gets the first cafe photo |
| RestaurantPhotos.Pool | utils/restaurant-photos.ts:49-54 | every restaurant type selects a non-empty pool |
| RestaurantPhotos.PickIndex | utils/restaurant-photos.ts:38 | the index `hashString(id) % arr.length` is in bounds for any non-empty pool |
| RestaurantPhotos.PickFrom | utils/restaurant-photos.ts:37-39 | a non-empty pool yields one of its own entries; an empty pool yields `undefined` |
| RestaurantPhotos.PickFromSameBucket | utils/restaurant-photos.ts:37-39 | identifiers whose hashes fall in the same bucket pick the same entry |
| RestaurantPhotos.GetRestaurantPhoto | utils/restaurant-photos.ts:46-55 | a present, non-empty provider URL is returned unchanged; otherwise the photo is the entry `pickFrom` chooses from the type's pool, hence a member of that pool |
| RestaurantPhotos.MissingAndEmptyUrlAgree | utils/restaurant-photos.ts:47 | a missing URL and an empty URL give the same photo |
| RestaurantPhotos.SameBucketSamePhoto | utils/restaurant-photos.ts:46-55 | two photo-less restaurants of one type whose identifiers share a bucket get the same photo |

## Left out

- React wiring: `createContext`, `useReducer`, `useCallback`, `MovieProvider` and the provider-missing throw in `useMovies`. The store is modelled as pure functions over `State`.
- The `setTimeout` delay and `async`/`await` of `fetchMovies`. The fetch is split at the `await` into `FetchPending` and the completing dispatches; actions dispatched during the delay, another fetch's included, are the `during` sequence of `FetchInterleaved`. The scheduler that picks an interleaving is not modelled.
- The `MOVIES` dataset (`data/movies`) is not part of this model. It is the `catalog` parameter.
- Text.Lower: maps only the ASCII letters `A`-`Z`, not full Unicode `toLowerCase`. The full mapping depends on Unicode case tables and can change a string's length.
- The reducer's `default` branch cannot be reached, because `Action` is a closed datatype. The `?? RESTAURANT_PHOTOS` fallback cannot be reached either, because every `RestaurantType` has a pool.
- Other `Restaurant` fields (`lat`, `lng`, `distance`, `rating`, name, contact fields and so on) and `AppLocation`. The photo selector does not read them, and several are floating-point.
- The restaurant `CategoryFilter` type, which no modelled code uses.
- JsNumber.BitAnd: takes integers only. Non-integral JavaScript numbers do not reach the hash: `h` is always an integer below 2^24, so `h*31 + c` stays below 2^31 and is exact.
- JavaScript strings that hold an unpaired surrogate code unit (such as `"\uD800"`). A Dafny `string` holds Unicode scalar values only, so `hashString` and the search are modelled on well-formed strings only.
- The login and welcome screens, and the other screens. They are presentation only.
