/** Values shared by the diary scan, the selections and the web report. */
module MovieTypes {

  datatype Option<+T> = None | Some(value: T)

  /** The "Year" field of a movie as Python sees it after JSON decoding.
      The metadata service and the cache file hold it as text ("2024");
      a comparison with an integer literal only matches a number. */
  datatype Year = YearText(text: string) | YearNumber(number: int)

  /** One enriched tuple (title, rating, genre, runtime_minutes, year).
      Ratings are only ever compared, so they are kept as integers
      (tenths of a star); an unrated diary entry has rating 0. */
  datatype Record = Record(title: string, rating: int, genre: string, runtime: int, year: Year)

  /** The (title, rating) pair stored per genre. */
  type Choice = (string, int)

  function ChoiceOf(m: Record): Choice
  {
    (m.title, m.rating)
  }

  /** Sort keys: `key=lambda x: x[1]` and the same with `reverse=True`. */
  function ByRating(m: Record): int
  {
    m.rating
  }

  function ByRatingDesc(m: Record): int
  {
    -m.rating
  }

  /** The set of titles occurring in a list of records. */
  function Titles(ms: seq<Record>): set<string>
  {
    set m | m in ms :: m.title
  }

  /** The set of genres occurring in a list of records. */
  function Genres(ms: seq<Record>): set<string>
  {
    set m | m in ms :: m.genre
  }

  /** No title occurs twice. */
  predicate DistinctTitles(ms: seq<Record>)
  {
    forall i, j :: 0 <= i < j < |ms| ==> ms[i].title != ms[j].title
  }

  /** Ratings never increase along the list (desc) or never decrease (!desc). */
  predicate RankedByRating(ms: seq<Record>, desc: bool)
  {
    forall i, j :: 0 <= i < j < |ms| ==> if desc then ms[i].rating >= ms[j].rating else ms[i].rating <= ms[j].rating
  }

  lemma TitlesAppend(ms: seq<Record>, m: Record)
    ensures Titles(ms + [m]) == Titles(ms) + {m.title}
  {
    assert forall x :: x in ms + [m] <==> x in ms || x == m;
  }

  lemma GenresAppend(ms: seq<Record>, m: Record)
    ensures Genres(ms + [m]) == Genres(ms) + {m.genre}
  {
    assert forall x :: x in ms + [m] <==> x in ms || x == m;
  }
}
