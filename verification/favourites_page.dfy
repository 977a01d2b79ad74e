/** The Favourites page: `fMovies` is loaded from the store once, on mount,
    and rendered as one card per entry in stored order. Each card then runs
    its own membership effect and handles its own heart clicks. */
module FavouritesPage {
  import opened Movies
  import opened FavList
  import opened FavStore
  import opened MovieCard

  /** The page's `fMovies` state. */
  datatype Page = Page(fMovies: seq<Movie>)

  /** The page together with its mounted cards and the store they share. */
  datatype Session = Session(page: Page, cards: seq<Card>, store: Store)

  /** First render: `useState([])`. */
  function NewPage(): (p: Page)
    ensures |p.fMovies| == 0
  {
    Page([])
  }

  /** The mount effect (empty dependency list): `fMovies` becomes the loaded
      list, so an absent key shows no cards. */
  function MountPage(store: Store): (p: Page)
    ensures store.None? ==> p.fMovies == []
    ensures store.Some? ==> p.fMovies == store.value
  {
    Page(Load(store))
  }

  /** `fMovies.map(movie => <MovieCard movie={movie} />)`: one card per entry,
      in stored order, with no de-duplication; each card's flag comes from its
      own membership effect against the store. */
  function RenderCards(page: Page, store: Store): (cards: seq<Card>)
    ensures |cards| == |page.fMovies|
    ensures forall i :: 0 <= i < |cards| ==> cards[i].movie == page.fMovies[i]
    ensures forall i :: 0 <= i < |cards| ==>
      (cards[i].isFavourite <==> HasId(Load(store), page.fMovies[i].id))
  {
    seq(|page.fMovies|, i requires 0 <= i < |page.fMovies| => MountCard(page.fMovies[i], store))
  }

  /** Navigating to the Favourites route: mount the page, then its cards. */
  function Open(store: Store): (s: Session)
    ensures s.store == store
    ensures s.page.fMovies == Load(store)
    ensures |s.cards| == |Load(store)|
    ensures forall i :: 0 <= i < |s.cards| ==> s.cards[i].movie == Load(store)[i]
  {
    var page := MountPage(store);
    Session(page, RenderCards(page, store), store)
  }

  /** A heart click on card `i`: that card toggles against the current store;
      the page's `fMovies` and every other card are left as they were. */
  function ClickHeart(s: Session, i: nat): (r: Session)
    requires i < |s.cards|
    ensures r.page == s.page
    ensures |r.cards| == |s.cards|
    ensures forall j :: 0 <= j < |s.cards| && j != i ==> r.cards[j] == s.cards[j]
    ensures r.cards[i].movie == s.cards[i].movie
    ensures r.cards[i].isFavourite == !s.cards[i].isFavourite
    ensures Load(r.store) == (if s.cards[i].isFavourite
                              then RemoveById(Load(s.store), s.cards[i].movie.id)
                              else Load(s.store) + [s.cards[i].movie])
  {
    var t := Toggle(s.cards[i], s.store);
    Session(s.page, s.cards[i := t.card], t.store)
  }

  /** On a freshly opened page every card shows a filled heart, since each
      entry's own id is in the list it was loaded from. */
  lemma OpenedCardsAreAllFavourites(store: Store)
    ensures var s := Open(store);
            forall i :: 0 <= i < |s.cards| ==> s.cards[i].isFavourite
  {
  }

  /** How many cards show a movie with `id`. */
  function CountCardsWithId(cards: seq<Card>, id: int): (n: nat)
    ensures n <= |cards|
  {
    if |cards| == 0 then 0
    else (if cards[0].movie.id == id then 1 else 0) + CountCardsWithId(cards[1..], id)
  }

  /** Cards that show `movies` entry by entry show each id as often as the
      list holds it. */
  lemma {:induction false} CardsCountLikeEntries(cards: seq<Card>, movies: seq<Movie>, id: int)
    requires |cards| == |movies|
    requires forall i :: 0 <= i < |cards| ==> cards[i].movie == movies[i]
    ensures CountCardsWithId(cards, id) == CountId(movies, id)
    decreases |cards|
  {
    if |cards| > 0 {
      CardsCountLikeEntries(cards[1..], movies[1..], id);
    }
  }

  /** No de-duplication: every id gets exactly as many cards as the store
      holds entries with it, so copies of one id are separate cards. */
  lemma DuplicatesShownSeparately(store: Store, id: int)
    ensures CountCardsWithId(Open(store).cards, id) == CountId(Load(store), id)
  {
    CardsCountLikeEntries(Open(store).cards, Load(store), id);
  }

  /** The list is read once: after a click removes card `i`'s movie from the
      store, the page still lists it, and only a fresh mount shows the
      written list. In the browser a removal on this route is followed at
      once by a page reload, so the staleness a user sees comes from writes
      made elsewhere after mounting, such as a second tab on the same
      store; the page's list ignores any store change in the same way. */
  lemma ListStaleUntilRemount(store: Store, i: nat)
    requires i < |Load(store)|
    ensures var s := Open(store);
            var r := ClickHeart(s, i);
            var id := Load(store)[i].id;
            && !HasId(Load(r.store), id)
            && r.page.fMovies == Load(store)
            && HasId(r.page.fMovies, id)
            && Open(r.store).page.fMovies == RemoveById(Load(store), id)
  {
  }

}
