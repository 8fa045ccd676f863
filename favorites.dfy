/** get_favorite_movies_by_genre: group the (title, rating) pairs of the
    records by genre, sort each group best first, keep its head. */
module Favorites {
  import opened MovieTypes
  import opened StableSort

  /** The pairs collected for genre g (`genre_dict[g]`), in list order. */
  function PairsOfGenre(ms: seq<Record>, g: string): seq<Choice>
  {
    if ms == [] then []
    else PairsOfGenre(ms[..|ms| - 1], g) + if ms[|ms| - 1].genre == g then [ChoiceOf(ms[|ms| - 1])] else []
  }

  /** The positions of the records of genre g, in increasing order. */
  function GenreIndices(ms: seq<Record>, g: string): (idx: seq<int>)
    ensures forall k :: 0 <= k < |idx| ==> 0 <= idx[k] < |ms| && ms[idx[k]].genre == g
    ensures forall k, l :: 0 <= k < l < |idx| ==> idx[k] < idx[l]
    ensures forall i :: 0 <= i < |ms| && ms[i].genre == g ==> i in idx
  {
    if ms == [] then []
    else GenreIndices(ms[..|ms| - 1], g) + if ms[|ms| - 1].genre == g then [|ms| - 1] else []
  }

  /** The group of genre g holds the pairs of exactly the records of
      genre g, in their order. */
  lemma {:induction false} PairsAtGenreIndices(ms: seq<Record>, g: string)
    ensures var ps, idx := PairsOfGenre(ms, g), GenreIndices(ms, g);
      |ps| == |idx| && forall k :: 0 <= k < |ps| ==> ps[k] == ChoiceOf(ms[idx[k]])
  {
    if ms != [] {
      var init := ms[..|ms| - 1];
      PairsAtGenreIndices(init, g);
      var ps, idx := PairsOfGenre(init, g), GenreIndices(init, g);
      forall k | 0 <= k < |idx| ensures ms[idx[k]] == init[idx[k]] { }
    }
  }

  lemma GroupIsNonEmpty(ms: seq<Record>, g: string)
    requires g in Genres(ms)
    ensures PairsOfGenre(ms, g) != []
  {
    var m :| m in ms && m.genre == g;
    var i :| 0 <= i < |ms| && ms[i] == m;
    assert i in GenreIndices(ms, g);
    PairsAtGenreIndices(ms, g);
  }

  /** `movies.sort(key=lambda x: x[1], reverse=True)` on a group. */
  function ByPairRatingDesc(p: Choice): int
  {
    -p.1
  }

  /** The head of a group sorted best first. */
  function Best(ps: seq<Choice>): Choice
    requires ps != []
  {
    Sort(ps, ByPairRatingDesc)[0]
  }

  /** The dictionary returned: one entry per genre that occurs. */
  function FavoritesByGenre(ms: seq<Record>): (d: map<string, Choice>)
    ensures d.Keys == Genres(ms)
  {
    map g | g in Genres(ms) :: (GroupIsNonEmpty(ms, g); Best(PairsOfGenre(ms, g)))
  }

  /** ms[i] is the first record of genre g among those with the highest
      rating in that genre. */
  ghost predicate FirstBestAt(ms: seq<Record>, g: string, i: int)
  {
    && 0 <= i < |ms|
    && ms[i].genre == g
    && (forall j :: 0 <= j < |ms| && ms[j].genre == g ==> ms[j].rating <= ms[i].rating)
    && (forall j :: 0 <= j < i && ms[j].genre == g ==> ms[j].rating < ms[i].rating)
  }

  /** d maps each genre that occurs, and only those, to the (title,
      rating) of its first best-rated record. */
  ghost predicate IsBestPerGenre(ms: seq<Record>, d: map<string, Choice>)
  {
    && d.Keys == Genres(ms)
    && forall g :: g in d ==> BestChoice(ms, g, d[g])
  }

  /** ms holds a record of genre g at position i with choice c that is the
      first best of its genre. */
  ghost predicate BestChoice(ms: seq<Record>, g: string, c: Choice)
  {
    exists i :: FirstBestAt(ms, g, i) && c == ChoiceOf(ms[i])
  }

  /** A position k of the group that holds the highest rating, strictly
      above every earlier position, is the first best record of the genre. */
  lemma GroupPositionIsFirstBest(ms: seq<Record>, g: string, ps: seq<Choice>, idx: seq<int>, k: int)
    requires |ps| == |idx| && 0 <= k < |ps|
    requires forall l :: 0 <= l < |idx| ==> 0 <= idx[l] < |ms| && ms[idx[l]].genre == g && ps[l] == ChoiceOf(ms[idx[l]])
    requires forall l, l' :: 0 <= l < l' < |idx| ==> idx[l] < idx[l']
    requires forall i :: 0 <= i < |ms| && ms[i].genre == g ==> i in idx
    requires forall l :: 0 <= l < |ps| ==> ps[l].1 <= ps[k].1
    requires forall l :: 0 <= l < k ==> ps[l].1 < ps[k].1
    ensures FirstBestAt(ms, g, idx[k])
  {
    var i := idx[k];
    forall j | 0 <= j < |ms| && ms[j].genre == g ensures ms[j].rating <= ms[i].rating {
      var l :| 0 <= l < |idx| && idx[l] == j;
      assert ps[l].1 <= ps[k].1;
    }
    forall j | 0 <= j < i && ms[j].genre == g ensures ms[j].rating < ms[i].rating {
      var l :| 0 <= l < |idx| && idx[l] == j;
      assert ps[l].1 < ps[k].1;
    }
  }

  /** The head of a group sorted best first is its first highest-rated
      pair. */
  lemma BestIsFirstMaximum(ps: seq<Choice>) returns (k: int)
    requires ps != []
    ensures 0 <= k < |ps| && Best(ps) == ps[k]
    ensures forall l :: 0 <= l < |ps| ==> ps[l].1 <= ps[k].1
    ensures forall l :: 0 <= l < k ==> ps[l].1 < ps[k].1
  {
    k := SortHeadIsFirstMinimum(ps, ByPairRatingDesc);
  }

  lemma BestOfGroupIsFirstBest(ms: seq<Record>, g: string)
    requires g in Genres(ms)
    ensures PairsOfGenre(ms, g) != [] && BestChoice(ms, g, Best(PairsOfGenre(ms, g)))
  {
    GroupIsNonEmpty(ms, g);
    var ps, idx := PairsOfGenre(ms, g), GenreIndices(ms, g);
    PairsAtGenreIndices(ms, g);
    var k := BestIsFirstMaximum(ps);
    GroupPositionIsFirstBest(ms, g, ps, idx, k);
  }

  /** The favourite of each genre is its highest rated record; because the
      sort is stable, among equally rated records it is the first one in
      the list. */
  lemma FavoritesAreBestPerGenre(ms: seq<Record>)
    ensures IsBestPerGenre(ms, FavoritesByGenre(ms))
  {
    forall g | g in Genres(ms) ensures BestChoice(ms, g, FavoritesByGenre(ms)[g]) {
      BestOfGroupIsFirstBest(ms, g);
    }
  }

  lemma FirstBestIsUnique(ms: seq<Record>, g: string, i: int, i': int)
    requires FirstBestAt(ms, g, i) && FirstBestAt(ms, g, i')
    ensures i == i'
  {
  }

  lemma BestChoiceIsUnique(ms: seq<Record>, g: string, c: Choice, c': Choice)
    requires BestChoice(ms, g, c) && BestChoice(ms, g, c')
    ensures c == c'
  {
    var i :| FirstBestAt(ms, g, i) && c == ChoiceOf(ms[i]);
    var i' :| FirstBestAt(ms, g, i') && c' == ChoiceOf(ms[i']);
    FirstBestIsUnique(ms, g, i, i');
  }

  /** The characterisation pins the dictionary down. */
  lemma BestPerGenreIsUnique(ms: seq<Record>, d: map<string, Choice>, e: map<string, Choice>)
    requires IsBestPerGenre(ms, d) && IsBestPerGenre(ms, e)
    ensures d == e
  {
    forall g | g in d ensures d[g] == e[g] {
      BestChoiceIsUnique(ms, g, d[g], e[g]);
    }
  }

  /** The first loop: `genre_dict[genre].append((movie, rating))`. */
  method GroupByGenre(movies: seq<Record>) returns (genreDict: map<string, seq<Choice>>)
    ensures genreDict.Keys == Genres(movies)
    ensures forall g :: g in genreDict ==> genreDict[g] == PairsOfGenre(movies, g)
  {
    genreDict := map[];
    for i := 0 to |movies|
      invariant genreDict.Keys == Genres(movies[..i])
      invariant forall g :: g in genreDict ==> genreDict[g] == PairsOfGenre(movies[..i], g)
    {
      var m := movies[i];
      assert movies[..i + 1] == movies[..i] + [m];
      GenresAppend(movies[..i], m);
      var group := if m.genre in genreDict then genreDict[m.genre] else [];
      PairsOfGenreAppend(movies[..i], m);
      genreDict := genreDict[m.genre := group + [ChoiceOf(m)]];
    }
    assert movies[..|movies|] == movies;
  }

  /** The function as written: group the records, then sort each group in
      turn and store its head. */
  method GetFavoriteMoviesByGenre(movies: seq<Record>) returns (favorites: map<string, Choice>)
    ensures favorites == FavoritesByGenre(movies)
  {
    var genreDict := GroupByGenre(movies);
    favorites := map[];
    var todo := genreDict.Keys;
    while todo != {}
      invariant todo <= genreDict.Keys
      invariant favorites.Keys == genreDict.Keys - todo
      invariant forall g :: g in favorites ==> favorites[g] == FavoritesByGenre(movies)[g]
      decreases todo
    {
      var g :| g in todo;
      GroupIsNonEmpty(movies, g);
      var sorted := Sort(genreDict[g], ByPairRatingDesc);
      favorites := favorites[g := sorted[0]];
      todo := todo - {g};
    }
  }

  /** Appending a record extends its genre's group and only that one. */
  lemma PairsOfGenreAppend(ms: seq<Record>, m: Record)
    ensures PairsOfGenre(ms + [m], m.genre) == PairsOfGenre(ms, m.genre) + [ChoiceOf(m)]
    ensures m.genre !in Genres(ms) ==> PairsOfGenre(ms, m.genre) == []
    ensures forall g :: g != m.genre ==> PairsOfGenre(ms + [m], g) == PairsOfGenre(ms, g)
  {
    assert (ms + [m])[..|ms|] == ms;
    if m.genre !in Genres(ms) && PairsOfGenre(ms, m.genre) != [] {
      NonEmptyGroupHasGenre(ms, m.genre);
    }
  }

  lemma {:induction false} NonEmptyGroupHasGenre(ms: seq<Record>, g: string)
    requires PairsOfGenre(ms, g) != []
    ensures g in Genres(ms)
  {
    var init := ms[..|ms| - 1];
    if ms[|ms| - 1].genre != g {
      NonEmptyGroupHasGenre(init, g);
      var m :| m in init && m.genre == g;
      assert m in ms;
    } else {
      assert ms[|ms| - 1] in ms;
    }
  }

  // ---------------------------------------------------------------------
  // Re-sorting by rating does not change the favourites

  /** x[i] is the first element of x with key v and genre g; then it is the
      first element of genre g among the elements with key v. */
  lemma {:induction false} FirstOfGenreWithKey(x: seq<Record>, key: Record -> int, v: int, g: string, i: int)
    returns (k: int)
    requires 0 <= i < |x| && key(x[i]) == v && x[i].genre == g
    requires forall j :: 0 <= j < i ==> !(key(x[j]) == v && x[j].genre == g)
    ensures 0 <= k < |WithKey(x, key, v)| && WithKey(x, key, v)[k] == x[i]
    ensures forall l :: 0 <= l < k ==> WithKey(x, key, v)[l].genre != g
  {
    var head := if key(x[0]) == v then [x[0]] else [];
    var w := head + WithKey(x[1..], key, v);
    assert WithKey(x, key, v) == w;
    if i == 0 {
      k := 0;
    } else {
      forall j | 0 <= j < i - 1 ensures !(key(x[1..][j]) == v && x[1..][j].genre == g) {
        assert x[1..][j] == x[j + 1];
      }
      var k1 := FirstOfGenreWithKey(x[1..], key, v, g, i - 1);
      k := |head| + k1;
      assert w[k] == WithKey(x[1..], key, v)[k1];
    }
  }

  /** The first position of t holding genre g and rating r, given one. */
  lemma {:induction false} FirstMatch(t: seq<Record>, g: string, r: int, j: int) returns (i: int)
    requires 0 <= j < |t| && t[j].genre == g && t[j].rating == r
    ensures 0 <= i <= j && t[i].genre == g && t[i].rating == r
    ensures forall l :: 0 <= l < i ==> !(t[l].genre == g && t[l].rating == r)
    decreases j
  {
    if l :| 0 <= l < j && t[l].genre == g && t[l].rating == r {
      i := FirstMatch(t, g, r, l);
    } else {
      i := j;
    }
  }

  lemma ElementsOfSort(s: seq<Record>, key: Record -> int)
    ensures forall m :: m in Sort(s, key) <==> m in s
    ensures Genres(Sort(s, key)) == Genres(s)
  {
    SortIsStablePermutation(s, key);
    assert forall m :: m in Sort(s, key) <==> m in multiset(Sort(s, key));
    assert forall m :: m in s <==> m in multiset(s);
  }

  /** A stable sort by a key that identifies the rating keeps, for every
      genre, the first best-rated record: ratings are not changed, and
      equally rated records keep their order. */
  lemma FirstBestSurvivesResort(s: seq<Record>, key: Record -> int, g: string, i: int) returns (i': int)
    requires forall a, b :: key(a) == key(b) <==> a.rating == b.rating
    requires FirstBestAt(s, g, i)
    ensures FirstBestAt(Sort(s, key), g, i') && Sort(s, key)[i'] == s[i]
  {
    var t := Sort(s, key);
    var r := s[i].rating;
    SortIsStablePermutation(s, key);
    ElementsOfSort(s, key);
    assert s[i] in t;
    var j :| 0 <= j < |t| && t[j] == s[i];
    i' := FirstMatch(t, g, r, j);
    forall l | 0 <= l < |t| && t[l].genre == g ensures t[l].rating <= r {
      assert t[l] in s;
    }
    assert FirstBestAt(t, g, i');
    var v := key(s[i]);
    var k := FirstOfGenreWithKey(s, key, v, g, i);
    var k' := FirstOfGenreWithKey(t, key, v, g, i');
    // both are the first element of genre g in the same list
    assert WithKey(t, key, v) == WithKey(s, key, v);
  }

  /** Sorting the records by rating, either way, leaves the favourites
      unchanged. */
  lemma BestPerGenreSurvivesResort(s: seq<Record>, key: Record -> int, d: map<string, Choice>)
    requires forall a, b :: key(a) == key(b) <==> a.rating == b.rating
    requires IsBestPerGenre(s, d)
    ensures IsBestPerGenre(Sort(s, key), d)
  {
    ElementsOfSort(s, key);
    forall g | g in d ensures BestChoice(Sort(s, key), g, d[g]) {
      var i :| FirstBestAt(s, g, i) && d[g] == ChoiceOf(s[i]);
      var i' := FirstBestSurvivesResort(s, key, g, i);
    }
  }
}
