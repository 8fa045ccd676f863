/** The command-line report: scan the diary with the saved cache, save the
    cache, pick the three five-title lists, compute the favourite of each
    genre and look up seven fixed genres. */
module WrappedReport {
  import opened MovieTypes
  import opened StableSort
  import opened Metadata
  import opened DiaryScan
  import opened Selections
  import opened Favorites
  import opened AppReport

  /** The genres the report prints, in order. */
  const SpecifiedGenres: seq<string> := ["Action", "Comedy", "Drama", "Horror", "Romance", "Sci-Fi", "Sports"]

  /** One line per specified genre: its favourite, or None for "No movies
      found". */
  function GenreLines(favorites: map<string, Choice>): (lines: seq<Option<Choice>>)
    ensures |lines| == |SpecifiedGenres|
  {
    seq(|SpecifiedGenres|, i requires 0 <= i < |SpecifiedGenres| =>
      if SpecifiedGenres[i] in favorites then Some(favorites[SpecifiedGenres[i]]) else None)
  }

  /** A specified genre is reported as having no movies exactly when no
      record has that genre; otherwise its line is the genre's first
      best-rated record. */
  lemma GenreLinesReportEachGenre(ms: seq<Record>)
    ensures forall i :: 0 <= i < |SpecifiedGenres| ==>
      (GenreLines(FavoritesByGenre(ms))[i].None? <==> SpecifiedGenres[i] !in Genres(ms))
    ensures forall i :: 0 <= i < |SpecifiedGenres| && GenreLines(FavoritesByGenre(ms))[i].Some? ==>
      BestChoice(ms, SpecifiedGenres[i], GenreLines(FavoritesByGenre(ms))[i].value)
  {
    FavoritesAreBestPerGenre(ms);
  }

  /** A list the stable sort returns is ranked by rating. */
  lemma SortRanks(s: seq<Record>)
    ensures RankedByRating(Sort(s, ByRatingDesc), true)
    ensures RankedByRating(Sort(s, ByRating), false)
  {
    SortIsStablePermutation(s, ByRatingDesc);
    SortIsStablePermutation(s, ByRating);
  }

  /** The favourites the command line prints (computed on the list
      re-sorted worst first), the web front end's genre dictionary
      (computed on the list sorted best first) and the favourites of the
      records in diary order are the same dictionary. */
  lemma FavoritesAgreeAcrossReports(movies: seq<Record>)
    ensures var sorted := Sort(movies, ByRatingDesc);
      && FavoritesByGenre(Sort(sorted, ByRating)) == FavoritesByGenre(movies)
      && GenresDict(sorted) == FavoritesByGenre(movies)
  {
    var d := FavoritesByGenre(movies);
    var sorted := Sort(movies, ByRatingDesc);
    var ascending := Sort(sorted, ByRating);
    FavoritesAreBestPerGenre(movies);
    BestPerGenreSurvivesResort(movies, ByRatingDesc, d);
    BestPerGenreSurvivesResort(sorted, ByRating, d);
    FavoritesAreBestPerGenre(ascending);
    BestPerGenreIsUnique(ascending, FavoritesByGenre(ascending), d);
    GenresDictIsBestPerGenre(sorted);
    BestPerGenreIsUnique(sorted, GenresDict(sorted), d);
  }

  /** What the report prints. */
  datatype Summary = Summary(
    top: seq<Record>,
    least: seq<Record>,
    madeIn2024: seq<Record>,
    genreLines: seq<Option<Choice>>,
    totalMinutes: int)

  /** The `__main__` block: the cache is loaded before and saved after the scan
      (the caller's cache object holds what is saved). */
  method CommandLineReport(rows: seq<Row>, cache: MovieCache, env: Env) returns (summary: Summary)
    modifies cache
    ensures var st := Scan(rows, env, old(cache.entries));
            var sorted := Sort(st.movies, ByRatingDesc);
            var ascending := Sort(sorted, ByRating);
      && cache.entries == st.cache
      && summary == Summary(Picked(sorted, Top), Picked(ascending, Least), Picked(sorted, Released2024),
                            GenreLines(FavoritesByGenre(ascending)), st.total)
  {
    var sorted, total := GetMovies2024SortedByRating(rows, cache, env);
    var top5, made2024 := SelectTopFive(sorted);
    var ascending := Sort(sorted, ByRating);
    var least5 := SelectLeastFive(ascending);
    var favorites := GetFavoriteMoviesByGenre(ascending);
    summary := Summary(top5, least5, made2024, GenreLines(favorites), total);
  }

  /** The top list holds the best rated titles of the year: every title
      left out is rated at most as well as every title kept, and titles are
      only left out when five are kept. The least list is the mirror image
      over the rated titles, and the 2024 list over the films released in
      2024. */
  lemma SummaryListsAreRanked(movies: seq<Record>, sel: Selection, x: Record)
    requires x in movies && Eligible(x, sel)
    ensures var sorted := Sort(movies, ByRatingDesc);
            var walked := if sel == Least then Sort(sorted, ByRating) else sorted;
            var p := Picked(walked, sel);
      x.title !in Titles(p) ==>
        |p| == 5 && forall y :: y in p ==> if sel == Least then y.rating <= x.rating else y.rating >= x.rating
  {
    var sorted := Sort(movies, ByRatingDesc);
    var walked := if sel == Least then Sort(sorted, ByRating) else sorted;
    SortRanks(movies);
    SortRanks(sorted);
    ElementsOfSort(movies, ByRatingDesc);
    ElementsOfSort(sorted, ByRating);
    if x.title !in Titles(Picked(walked, sel)) {
      PickedIsFirstFive(walked, sel, sel != Least, x);
    }
  }
}
