/** The movie record a card receives as its `movie` prop and that the
    favourites list stores. Only the fields the card reads are kept; the
    catalog sends more, and they travel through the store untouched. */
module Movies {
  import opened Wrappers

  datatype Movie = Movie(
    id: int,                       // catalog identity, compared with `===`
    title: string,
    posterPath: string,
    releaseDate: Option<string>    // `release_date`; None when undefined or null
  )

}
