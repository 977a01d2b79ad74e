/** One movie card: its heart flag, the membership effect that sets the
    flag from the store, the heart click that rewrites the store, and the
    year label under the title. */
module MovieCard {
  import opened Wrappers
  import opened Movies
  import opened FavList
  import opened FavStore
  import TextSplit

  /** A card's `movie` prop and its in-memory `isFavourite` state. */
  datatype Card = Card(movie: Movie, isFavourite: bool)

  /** What a heart click leaves behind: the card's new state and the store. */
  datatype Toggled = Toggled(card: Card, store: Store)

  /** First render: `useState(false)`. */
  function NewCard(movie: Movie): (c: Card)
    ensures c.movie == movie && !c.isFavourite
  {
    Card(movie, false)
  }

  /** The effect on `[movie.id]`: reload the list and set the flag to whether
      some stored entry has the card's id. */
  function SyncFavourite(card: Card, store: Store): (c: Card)
    ensures c.movie == card.movie
    ensures c.isFavourite <==>
      exists i :: 0 <= i < |Load(store)| && Load(store)[i].id == card.movie.id
  {
    Card(card.movie, HasId(Load(store), card.movie.id))
  }

  /** A card after its first render and its membership effect. */
  function MountCard(movie: Movie, store: Store): (c: Card)
    ensures c.movie == movie
    ensures c.isFavourite <==> HasId(Load(store), movie.id)
  {
    SyncFavourite(NewCard(movie), store)
  }

  /** `toggleFavourite`: re-read the list; when the in-memory flag is set,
      drop every entry with the card's id, otherwise append the card's movie
      with no membership test; write the whole list back; flip the flag. */
  function Toggle(card: Card, store: Store): (r: Toggled)
    ensures r.store.Some?
    ensures r.card.movie == card.movie
    ensures r.card.isFavourite == !card.isFavourite
    ensures card.isFavourite ==>
      && (forall k :: 0 <= k < |Load(r.store)| ==> Load(r.store)[k].id != card.movie.id)
      && IsSubsequence(Load(r.store), Load(store))
      && |Load(r.store)| + CountId(Load(store), card.movie.id) == |Load(store)|
    ensures !card.isFavourite ==>
      && |Load(r.store)| == |Load(store)| + 1
      && Load(r.store)[..|Load(store)|] == Load(store)
      && Load(r.store)[|Load(store)|] == card.movie
  {
    var favs := Load(store);
    var updated := if card.isFavourite then RemoveById(favs, card.movie.id)
                   else favs + [card.movie];
    Toggled(Card(card.movie, !card.isFavourite), Save(updated))
  }

  /** The card's year label, `movie.release_date?.split("-")[0]`: nothing when
      the date is undefined, else the text before the first `-`, or the whole
      date when it has none. */
  function YearLabel(movie: Movie): (year: Option<string>)
    ensures year.None? <==> movie.releaseDate.None?
    ensures year.Some? ==>
      var d := movie.releaseDate.value;
      && year.value <= d
      && '-' !in year.value
      && (|year.value| < |d| ==> d[|year.value|] == '-')
      && ('-' !in d ==> year.value == d)
  {
    match movie.releaseDate
    case None => None
    case Some(d) =>
      TextSplit.FirstPieceIsPrefixBeforeSeparator(d, '-');
      Some(TextSplit.Split(d, '-')[0])
  }

  /** Add then remove, starting from a correct unset flag and a list without
      the movie, writes back exactly the original list. */
  lemma AddThenRemoveRestores(card: Card, store: Store)
    requires !card.isFavourite
    requires !HasId(Load(store), card.movie.id)
    ensures var t1 := Toggle(card, store);
            var t2 := Toggle(t1.card, t1.store);
            t2.store == Some(Load(store)) && t2.card == card
  {
    var favs := Load(store);
    var id := card.movie.id;
    RemoveByIdDistributes(favs, [card.movie], id);
    RemoveAbsentIsIdentity(favs, id);
    assert RemoveById([card.movie], id) == [];
    var t1 := Toggle(card, store);
    assert Load(t1.store) == favs + [card.movie];
    assert RemoveById(favs + [card.movie], id) == favs + [];
    assert favs + [] == favs;
  }

  /** Remove then add puts the movie back once, at the end, whatever its
      earlier position and number of copies. */
  lemma RemoveThenAddMovesToEnd(card: Card, store: Store)
    requires card.isFavourite
    ensures var t1 := Toggle(card, store);
            var t2 := Toggle(t1.card, t1.store);
            && Load(t2.store) == RemoveById(Load(store), card.movie.id) + [card.movie]
            && CountId(Load(t2.store), card.movie.id) == 1
  {
    var removed := RemoveById(Load(store), card.movie.id);
    CountIdAppend(removed, card.movie, card.movie.id);
  }

  /** From a set flag, two clicks give back the original list exactly when
      the movie was stored once and as the last entry. */
  lemma RemoveThenAddRestoresIff(card: Card, store: Store)
    requires card.isFavourite
    ensures var t1 := Toggle(card, store);
            var t2 := Toggle(t1.card, t1.store);
            var favs := Load(store);
            (Load(t2.store) == favs) <==>
              (&& |favs| > 0
               && favs[|favs| - 1] == card.movie
               && CountId(favs, card.movie.id) == 1)
  {
    var favs := Load(store);
    var m := card.movie;
    var id := m.id;
    RemoveThenAddMovesToEnd(card, store);
    if |favs| > 0 && favs[|favs| - 1] == m && CountId(favs, id) == 1 {
      var p := favs[..|favs| - 1];
      assert favs == p + [m];
      CountIdAppend(p, m, id);
      RemoveAbsentIsIdentity(p, id);
      RemoveByIdDistributes(p, [m], id);
      assert RemoveById([m], id) == [];
      assert RemoveById(favs, id) == p + [];
    }
  }

  /** From an unset flag on a movie already stored, two clicks never give
      back the list: the add appends a copy and the remove then drops every
      copy, so the written list no longer holds the id. */
  lemma AddThenRemoveDropsStoredMovie(card: Card, store: Store)
    requires !card.isFavourite
    requires HasId(Load(store), card.movie.id)
    ensures var t1 := Toggle(card, store);
            var t2 := Toggle(t1.card, t1.store);
            && !HasId(Load(t2.store), card.movie.id)
            && Load(t2.store) != Load(store)
  {
  }

  /** A concrete list on which a remove-then-add pair reorders entries. */
  lemma RemoveThenAddReordersExample()
    ensures var a := Movie(1, "A", "/a.jpg", None);
            var b := Movie(2, "B", "/b.jpg", None);
            var t1 := Toggle(Card(a, true), Some([a, b]));
            var t2 := Toggle(t1.card, t1.store);
            t2.store == Some([b, a]) && t2.store != Some([a, b])
  {
    var a := Movie(1, "A", "/a.jpg", None);
    var b := Movie(2, "B", "/b.jpg", None);
    RemoveThenAddMovesToEnd(Card(a, true), Some([a, b]));
    assert [a, b][1..] == [b];
    assert RemoveById([b], 1) == [b];
    assert RemoveById([a, b], 1) == [b];
    assert [b] + [a] == [b, a];
  }

  /** A flag that agrees with the store stays in agreement after a click:
      membership of the id in the written list equals the new flag, and a
      fresh membership effect would leave the card unchanged. */
  lemma ToggleKeepsFlagInSync(card: Card, store: Store)
    requires card.isFavourite == HasId(Load(store), card.movie.id)
    ensures var t := Toggle(card, store);
            && t.card.isFavourite == HasId(Load(t.store), card.movie.id)
            && SyncFavourite(t.card, t.store) == t.card
  {
  }

  /** A stale unset flag on a movie already stored appends a second copy:
      the add branch counts one more entry for the id, so at least two. */
  lemma StaleFlagDuplicates(card: Card, store: Store)
    requires !card.isFavourite
    requires HasId(Load(store), card.movie.id)
    ensures var t := Toggle(card, store);
            && CountId(Load(t.store), card.movie.id) == CountId(Load(store), card.movie.id) + 1
            && CountId(Load(t.store), card.movie.id) >= 2
  {
    CountIdAppend(Load(store), card.movie, card.movie.id);
  }

  /** Two cards for one movie, mounted on a store that does not hold it:
      clicking one heart and then the other stores the movie twice, because
      the second card's flag was never refreshed. */
  lemma TwoCardsStoreTwoCopies(movie: Movie, store: Store)
    requires !HasId(Load(store), movie.id)
    ensures var a := MountCard(movie, store);
            var b := MountCard(movie, store);
            var t1 := Toggle(a, store);
            var t2 := Toggle(b, t1.store);
            && Load(t2.store) == Load(store) + [movie, movie]
            && CountId(Load(t2.store), movie.id) == 2
            && t1.card.isFavourite && t2.card.isFavourite
  {
    var favs := Load(store);
    var a := MountCard(movie, store);
    var b := MountCard(movie, store);
    assert !a.isFavourite && !b.isFavourite;
    var t1 := Toggle(a, store);
    assert Load(t1.store) == favs + [movie];
    var t2 := Toggle(b, t1.store);
    assert Load(t2.store) == favs + [movie] + [movie];
    CountIdAppend(favs, movie, movie.id);
    CountIdAppend(favs + [movie], movie, movie.id);
    assert favs + [movie] + [movie] == favs + [movie, movie];
  }

}
