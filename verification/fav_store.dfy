/** The `"favs"` key of the browser's key-value store, seen through its
    JSON decoding: absent, or a list of movie records. */
module FavStore {
  import opened Wrappers
  import opened Movies

  type Store = Option<seq<Movie>>

  /** `JSON.parse(localStorage.getItem("favs")) || []`: a missing key gives
      `JSON.parse(null) === null`, which `|| []` turns into the empty list;
      a stored array, even an empty one, is truthy and is used as is. */
  function Load(store: Store): (favs: seq<Movie>)
    ensures store.None? ==> favs == []
    ensures store.Some? ==> favs == store.value
  {
    match store
    case None => []
    case Some(l) => l
  }

  /** `localStorage.setItem("favs", JSON.stringify(favs))`. */
  function Save(favs: seq<Movie>): (store: Store)
    ensures store.Some?
    ensures Load(store) == favs
  {
    Some(favs)
  }

}
