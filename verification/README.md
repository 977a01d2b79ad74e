# Favourites list of the movie browser, modelled in Dafny

The movie browser (`theshanGeeth123/movie-app-tmdb`) keeps the user's
favourites as a JSON array of movie records under the key `"favs"` of the
browser's key-value store. Each movie card reads that list to set its heart
flag. A heart click re-reads the list and removes or appends the card's
movie, then writes the list back. The Favourites page loads the list once,
when it mounts, and shows one card per entry. The card also shows the release
year, which is the text before the first `-` of `release_date`.

The project models that behaviour with immutable datatypes and pure functions:

- `wrappers.dfy` (`Wrappers`): the `Option` type.
- `movies.dfy` (`Movies`): the `Movie` record. Its fields `id`, `title`, `posterPath` and `releaseDate` stand for the JavaScript keys `id`, `title`, `poster_path` and `release_date`; `releaseDate` is an `Option`, `None` standing for an undefined or `null` date.
- `fav_store.dfy` (`FavStore`): the `"favs"` key as `Option<seq<Movie>>`, where `None` means the key is absent. It also defines the load-with-empty-default and the write.
- `fav_list.dfy` (`FavList`): the list operations the code uses, `some` by id and `filter` by id. It also holds the lemmas about order, multiplicity and concatenation.
- `text_split.dfy` (`TextSplit`): `split` with a one-character separator, plus its inverse `join`.
- `movie_card.dfy` (`MovieCard`): the card's state, its membership effect, `toggleFavourite` and the year label. It also holds the round-trip, flag-agreement and duplicate lemmas.
- `favourites_page.dfy` (`FavouritesPage`): the page's mount-time load, the one-card-per-entry rendering, and heart clicks on that page.

Behaviour of the code that the lemmas make explicit:

- The add branch never de-duplicates by `id`. It appends even when the
  movie is already stored, because the branch is chosen by the card's
  in-memory flag, not by a fresh membership test. `StaleFlagDuplicates` and
  `TwoCardsStoreTwoCopies` show the second copy being stored.
- From an unset flag on a movie that is not stored, two clicks restore the
  list (`AddThenRemoveRestores`). From an unset flag on a movie already
  stored, they never do: every copy is dropped (`AddThenRemoveDropsStoredMovie`).
- From a set flag, two clicks put the movie back once, at the end
  (`RemoveThenAddMovesToEnd`), so they restore the list exactly when the
  movie was stored once and as the last entry (`RemoveThenAddRestoresIff`);
  on `[a, b]` they give `[b, a]` (`RemoveThenAddReordersExample`).

## Model

| member | source | states |
|---|---|---|
| `FavStore.Load` | frontend/src/components/MovieCard.jsx:19 | an absent `"favs"` key loads as the empty list; a stored list, even an empty one, is used unchanged |
| `FavStore.Save` | frontend/src/components/MovieCard.jsx:37 | writing a list stores a value that loads back as exactly that list |
| `FavList.HasId` | frontend/src/components/MovieCard.jsx:20 | `some` by id is true exactly when some index of the list holds an entry with that id |
| `FavList.RemoveById` | frontend/src/components/MovieCard.jsx:29 | the filtered list holds no entry with the id, is an order-preserving subsequence of the input, and is shorter by exactly the number of copies of the id |
| `FavList.RemoveByIdIsUnique` | frontend/src/components/MovieCard.jsx:29 | any id-free, order-preserving subsequence of that length equals the filter, so the three facts above fully characterise it |
| `FavList.RemoveByIdKeepsOthers` | frontend/src/components/MovieCard.jsx:29 | every record with a different id keeps its number of occurrences |
| `FavList.RemoveByIdDistributes` | frontend/src/components/MovieCard.jsx:29 | filtering a concatenation is the concatenation of the filtered halves |
| `FavList.RemoveAbsentIsIdentity` | frontend/src/components/MovieCard.jsx:29 | filtering out an id the list does not hold returns the list unchanged |
| `FavList.CountIdAppend` | frontend/src/components/MovieCard.jsx:34 | appending a record raises its id's count by one and leaves every other id's count alone |
| `MovieCard.NewCard` | frontend/src/components/MovieCard.jsx:7 | a card starts with its heart flag unset |
| `MovieCard.SyncFavourite` | frontend/src/components/MovieCard.jsx:18-22 | the membership effect sets the flag to true exactly when some stored entry has the card's id, and keeps the movie |
| `MovieCard.MountCard` | frontend/src/components/MovieCard.jsx:7-22 | after mounting, the flag equals membership of the card's id in the loaded list |
| `MovieCard.Toggle` | frontend/src/components/MovieCard.jsx:24-39 | a click always writes the store and flips the flag; with the flag set, the written list is the id-free, order-preserving filter of the loaded list, with every copy removed; with it unset, the written list is the loaded list with the movie appended and is one longer |
| `MovieCard.AddThenRemoveRestores` | frontend/src/components/MovieCard.jsx:29-38 | from an unset flag and a list without the movie, two clicks store exactly the original list and return the card to its first state |
| `MovieCard.RemoveThenAddMovesToEnd` | frontend/src/components/MovieCard.jsx:29-38 | from a set flag, two clicks store the list without the id followed by one copy of the movie |
| `MovieCard.RemoveThenAddRestoresIff` | frontend/src/components/MovieCard.jsx:29-38 | from a set flag, two clicks give back the original list if and only if the movie was stored exactly once and as the last entry |
| `MovieCard.AddThenRemoveDropsStoredMovie` | frontend/src/components/MovieCard.jsx:28-38 | from an unset flag on a movie already stored, two clicks leave no entry with its id, so the list is never restored |
| `MovieCard.RemoveThenAddReordersExample` | frontend/src/components/MovieCard.jsx:29-38 | on `[a, b]`, removing and re-adding `a` stores `[b, a]`, not `[a, b]` |
| `MovieCard.ToggleKeepsFlagInSync` | frontend/src/components/MovieCard.jsx:20-38 | when the flag equals membership before a click, membership of the id in the written list equals the new flag, and a rerun of the membership effect changes nothing |
| `MovieCard.StaleFlagDuplicates` | frontend/src/components/MovieCard.jsx:28-35 | an unset flag on a movie already stored appends another copy, so the id then occurs at least twice |
| `MovieCard.TwoCardsStoreTwoCopies` | frontend/src/components/MovieCard.jsx:18-38 | two cards for one absent movie, mounted on the same store and clicked in turn, store the movie twice |
| `MovieCard.YearLabel` | frontend/src/components/MovieCard.jsx:65 | no label when `release_date` is undefined or `null` (both short-circuit `?.`, both are `None`); otherwise the label is a prefix of the date with no `-`, followed in the date by `-` when shorter, and the whole date when it has no `-` |
| `TextSplit.Split` | frontend/src/components/MovieCard.jsx:65 | `split("-")` yields at least one piece, no piece contains the separator, and joining the pieces with it gives the string back |
| `TextSplit.FirstPieceIsPrefixBeforeSeparator` | frontend/src/components/MovieCard.jsx:65 | piece `[0]` of a split is the text before the first separator, or the whole string when it has none |
| `FavouritesPage.NewPage` | frontend/src/pages/Favourites.jsx:6 | the page starts with no movies |
| `FavouritesPage.MountPage` | frontend/src/pages/Favourites.jsx:8-11 | the mount effect sets `fMovies` to the stored list, and to the empty list when the key is absent |
| `FavouritesPage.RenderCards` | frontend/src/pages/Favourites.jsx:26 | one card per entry, in stored order, each card's flag being membership of its id in the store |
| `FavouritesPage.Open` | frontend/src/pages/Favourites.jsx:8-26 | an opened page lists exactly the stored entries and renders one card for each, in order |
| `FavouritesPage.ClickHeart` | frontend/src/components/MovieCard.jsx:24-39 | a click on one card toggles only that card and writes the store; the page's list and the other cards stay unchanged |
| `FavouritesPage.OpenedCardsAreAllFavourites` | frontend/src/pages/Favourites.jsx:9-26 | every card on a freshly opened page shows a filled heart |
| `FavouritesPage.CardsCountLikeEntries` | frontend/src/pages/Favourites.jsx:26 | cards rendered entry by entry show each id exactly as many times as the list holds it |
| `FavouritesPage.DuplicatesShownSeparately` | frontend/src/pages/Favourites.jsx:10-26 | no de-duplication: for every id, the number of cards on an opened page equals the number of stored entries with that id |
| `FavouritesPage.ListStaleUntilRemount` | frontend/src/pages/Favourites.jsx:8-11 | after a click removes a movie, the store no longer holds its id but the page still lists it; only a fresh mount shows the filtered list |

## Left out

- Store I/O and JSON text: the store is an abstract `Option<seq<Movie>>`. Stringifying and parsing a `Movie` is taken to be lossless.
- Stored values other than an absent key or a list of movie records. The model's `None` covers the absent key; the falsy JSON values `null`, `false`, `0` and `""` also load as `[]` through `|| []` in the code, and the model does not distinguish them from an absent key. A truthy value that is not an array makes `.some` or `.filter` throw. In the add branch, `[...favs, movie]` spreads a stored string into its characters without throwing, and throws on a non-iterable object. A `null` entry inside the array throws when `.some` or `.filter` reads its `id`. None of these paths is modelled. Primitive entries such as numbers or strings have an undefined `id`, so in the code they never match and are kept by the filter; the model's list holds only `Movie` records.
- `window.location.reload()` after a removal on the `/favourites` route: this is a browser side effect. `ListStaleUntilRemount` shows the stale list that the reload makes up for; without a reload, a write from another tab on the same store after mounting leaves the page's list stale in the same way.
- React scheduling: state updates are taken to apply at once. The membership effect rerun when `movie.id` changes is the same `SyncFavourite` step applied again.
- React's duplicate-`key` warning on cards that share an id: this is a rendering diagnostic, not list logic.
- AOS animation setup, image URL construction, routing, the navigation bar and styling: presentation only.
- Catalog requests (`getPopularMovies`, `getMovieById`) and their loading and error state: these are async calls to an external service, and `Services/Api` is not part of this model.
