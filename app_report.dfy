/** The upload handler of the web front end: it runs the diary scan,
    saves the cache, folds the records into a genre dictionary and takes
    three five-record slices of the rating-ordered list. */
module AppReport {
  import opened MovieTypes
  import opened StableSort
  import opened Metadata
  import opened DiaryScan
  import opened Favorites

  // ---------------------------------------------------------------------
  // genres_dict

  /** The dictionary after folding the records in order: a genre gets the
      record's (title, rating) when it has no entry yet or the rating is
      strictly higher than the stored one. */
  function GenresDict(ms: seq<Record>): map<string, Choice>
  {
    if ms == [] then map[]
    else
      var d := GenresDict(ms[..|ms| - 1]);
      var m := ms[|ms| - 1];
      if m.genre !in d || m.rating > d[m.genre].1 then d[m.genre := ChoiceOf(m)] else d
  }

  lemma FirstBestExtends(ms: seq<Record>, g: string, i: int)
    requires ms != [] && FirstBestAt(ms[..|ms| - 1], g, i)
    requires ms[|ms| - 1].genre == g ==> ms[|ms| - 1].rating <= ms[i].rating
    ensures FirstBestAt(ms, g, i)
  {
    var init := ms[..|ms| - 1];
    forall j | 0 <= j < |init| ensures ms[j] == init[j] { }
  }

  lemma FirstBestIsLast(ms: seq<Record>, g: string)
    requires ms != [] && ms[|ms| - 1].genre == g
    requires forall j :: 0 <= j < |ms| - 1 && ms[j].genre == g ==> ms[j].rating < ms[|ms| - 1].rating
    ensures FirstBestAt(ms, g, |ms| - 1)
  {
  }

  /** The strict comparison keeps, per genre, the first record with the
      highest rating: exactly what the command-line favourites keep. */
  lemma {:induction false} GenresDictIsBestPerGenre(ms: seq<Record>)
    ensures IsBestPerGenre(ms, GenresDict(ms))
  {
    if ms != [] {
      var init, m := ms[..|ms| - 1], ms[|ms| - 1];
      var d := GenresDict(init);
      GenresDictIsBestPerGenre(init);
      assert ms == init + [m];
      GenresAppend(init, m);
      var d' := GenresDict(ms);
      forall g | g in d' ensures BestChoice(ms, g, d'[g]) {
        if g != m.genre || (g in d && m.rating <= d[g].1) {
          var i :| FirstBestAt(init, g, i) && d[g] == ChoiceOf(init[i]);
          FirstBestExtends(ms, g, i);
        } else {
          forall j | 0 <= j < |ms| - 1 && ms[j].genre == g ensures ms[j].rating < m.rating {
            assert init[j] in init;
            if g in d {
              var i :| FirstBestAt(init, g, i) && d[g] == ChoiceOf(init[i]);
              assert init[j].rating <= init[i].rating;
            }
          }
          FirstBestIsLast(ms, g);
        }
      }
    }
  }

  /** The web genre dictionary and the command-line favourites agree on
      the same list. */
  lemma GenresDictIsFavorites(ms: seq<Record>)
    ensures GenresDict(ms) == FavoritesByGenre(ms)
  {
    GenresDictIsBestPerGenre(ms);
    FavoritesAreBestPerGenre(ms);
    BestPerGenreIsUnique(ms, GenresDict(ms), FavoritesByGenre(ms));
  }

  /** The loop of app.py lines 33-37. */
  method BuildGenresDict(movies: seq<Record>) returns (genres: map<string, Choice>)
    ensures genres == GenresDict(movies)
  {
    genres := map[];
    for i := 0 to |movies|
      invariant genres == GenresDict(movies[..i])
    {
      var m := movies[i];
      assert movies[..i + 1][..i] == movies[..i];
      if m.genre !in genres || m.rating > genres[m.genre].1 {
        genres := genres[m.genre := ChoiceOf(m)];
      }
    }
    assert movies[..|movies|] == movies;
  }

  // ---------------------------------------------------------------------
  // The slices

  /** `movies_2024_sorted[:5]`. */
  function FirstFive(s: seq<Record>): (r: seq<Record>)
    ensures r <= s && |r| == if |s| < 5 then |s| else 5
  {
    if |s| < 5 then s else s[..5]
  }

  /** `movies_2024_sorted[-5:]`. */
  function LastFive(s: seq<Record>): (r: seq<Record>)
    ensures |r| == if |s| < 5 then |s| else 5
    ensures s == s[..|s| - |r|] + r
  {
    if |s| < 5 then s else s[|s| - 5..]
  }

  /** On the list ranked best first, the first five are rated at least as
      well as every record after them. */
  lemma FirstFiveAreBest(s: seq<Record>)
    requires RankedByRating(s, true)
    ensures forall i, j :: 0 <= i < |FirstFive(s)| <= j < |s| ==> FirstFive(s)[i].rating >= s[j].rating
  {
  }

  /** On the list ranked best first, the last five are rated at most as
      well as every record before them, and they come best first too. */
  lemma {:induction false} LastFiveAreWorst(s: seq<Record>)
    requires RankedByRating(s, true)
    ensures var r := LastFive(s);
      && (forall i, j :: 0 <= i < |r| && 0 <= j < |s| - |r| ==> r[i].rating <= s[j].rating)
      && RankedByRating(r, true)
  {
    var r := LastFive(s);
    var n := |s| - |r|;
    forall i, j | 0 <= i < |r| && 0 <= j < n ensures r[i].rating <= s[j].rating {
      SuffixIndex(s, r, i);
    }
    forall i, j | 0 <= i < j < |r| ensures r[i].rating >= r[j].rating {
      SuffixIndex(s, r, i);
      SuffixIndex(s, r, j);
    }
  }

  /** Element i of a suffix r of s is element |s| - |r| + i of s. */
  lemma {:induction false} SuffixIndex(s: seq<Record>, r: seq<Record>, i: int)
    requires |r| <= |s| && s == s[..|s| - |r|] + r && 0 <= i < |r|
    ensures r[i] == s[|s| - |r| + i]
  {
    assert s[|s| - |r| + i] == (s[..|s| - |r|] + r)[|s| - |r| + i];
  }

  /** The records released in year y, in list order. */
  function MadeIn(s: seq<Record>, y: Year): (r: seq<Record>)
    ensures forall m :: m in r <==> m in s && m.year == y
  {
    if s == [] then []
    else MadeIn(s[..|s| - 1], y) + if s[|s| - 1].year == y then [s[|s| - 1]] else []
  }

  /** The filter keeps the records of year y in list order: the k-th
      record kept is the one at the k-th position of s holding year y. */
  lemma {:induction false} MadeInPositions(s: seq<Record>, y: Year) returns (idx: seq<int>)
    ensures Positions(s, y, MadeIn(s, y), idx)
  {
    if s == [] {
      idx := [];
    } else {
      var idx0 := MadeInPositions(s[..|s| - 1], y);
      idx := PositionsExtend(s, y, idx0);
    }
  }

  /** idx lists, in increasing order, exactly the positions of s holding
      year y, and r holds the records at those positions. */
  ghost predicate Positions(s: seq<Record>, y: Year, r: seq<Record>, idx: seq<int>)
  {
    && |idx| == |r|
    && (forall k :: 0 <= k < |idx| ==> 0 <= idx[k] < |s| && r[k] == s[idx[k]])
    && (forall k, l :: 0 <= k < l < |idx| ==> idx[k] < idx[l])
    && (forall i :: 0 <= i < |s| && s[i].year == y ==> i in idx)
  }

  lemma {:induction false} PositionsExtend(s: seq<Record>, y: Year, idx0: seq<int>) returns (idx: seq<int>)
    requires s != [] && Positions(s[..|s| - 1], y, MadeIn(s[..|s| - 1], y), idx0)
    ensures Positions(s, y, MadeIn(s, y), idx)
  {
    var last := |s| - 1;
    var init := s[..last];
    var m0 := MadeIn(init, y);
    if s[last].year == y {
      assert MadeIn(s, y) == m0 + [s[last]];
      idx := idx0 + [last];
      PositionsSnoc(s, y, m0, idx0);
    } else {
      assert MadeIn(s, y) == m0;
      idx := idx0;
      PositionsSkip(s, y, m0, idx0);
    }
  }

  lemma {:induction false} PositionsSkip(s: seq<Record>, y: Year, m0: seq<Record>, idx0: seq<int>)
    requires s != [] && s[|s| - 1].year != y
    requires Positions(s[..|s| - 1], y, m0, idx0)
    ensures Positions(s, y, m0, idx0)
  {
    var last := |s| - 1;
    var init := s[..last];
    forall k | 0 <= k < |idx0| ensures 0 <= idx0[k] < |s| && m0[k] == s[idx0[k]] {
      assert init[idx0[k]] == s[idx0[k]];
    }
    forall i | 0 <= i < |s| && s[i].year == y ensures i in idx0 {
      assert init[i] == s[i];
    }
  }

  lemma {:induction false} PositionsSnoc(s: seq<Record>, y: Year, m0: seq<Record>, idx0: seq<int>)
    requires s != [] && s[|s| - 1].year == y
    requires Positions(s[..|s| - 1], y, m0, idx0)
    ensures Positions(s, y, m0 + [s[|s| - 1]], idx0 + [|s| - 1])
  {
    var last := |s| - 1;
    var init := s[..last];
    var m, idx := m0 + [s[last]], idx0 + [last];
    forall k | 0 <= k < |idx| ensures 0 <= idx[k] < |s| && m[k] == s[idx[k]] {
      if k < |idx0| {
        assert m[k] == m0[k] && init[idx0[k]] == s[idx0[k]];
      }
    }
    forall i | 0 <= i < |s| && s[i].year == y ensures i in idx {
      if i < last {
        assert init[i] == s[i];
        var k :| 0 <= k < |idx0| && idx0[k] == i;
        assert idx[k] == i;
      } else {
        assert idx[|idx| - 1] == i;
      }
    }
  }

  /** `[m for m in movies_2024_sorted if m[4] == 2024][:5]` as written: the
      year is compared with the integer 2024. */
  function MadeIn2024AsWritten(s: seq<Record>): (r: seq<Record>)
    ensures var all := MadeIn(s, YearNumber(2024));
      r <= all && |r| == if |all| < 5 then |all| else 5
    ensures forall m :: m in r ==> m in s && m.year == YearNumber(2024)
  {
    var all := MadeIn(s, YearNumber(2024));
    PrefixMembers(FirstFive(all), all);
    FirstFive(all)
  }

  lemma PrefixMembers(p: seq<Record>, q: seq<Record>)
    requires p <= q
    ensures forall m :: m in p ==> m in q
  {
    forall m | m in p ensures m in q {
      var i :| 0 <= i < |p| && p[i] == m;
      assert q[i] == m;
    }
  }

  /** The metadata service and the cache hold years as text, so the list as
      written is always empty. */
  lemma MadeIn2024AsWrittenIsEmpty(s: seq<Record>)
    requires forall m :: m in s ==> m.year.YearText?
    ensures MadeIn2024AsWritten(s) == []
  {
    MadeInNothing(s, YearNumber(2024));
  }

  lemma {:induction false} MadeInNothing(s: seq<Record>, y: Year)
    requires forall m :: m in s ==> m.year != y
    ensures MadeIn(s, y) == []
  {
    if s != [] {
      assert s[|s| - 1] in s;
      MadeInNothing(s[..|s| - 1], y);
    }
  }

  /** A film released in 2024, as the service reports it, that the list as
      written leaves out. */
  lemma MadeIn2024AsWrittenMissesA2024Film()
    ensures var m := Record("Challengers", 40, "Drama", 131, YearText("2024"));
      MadeIn2024AsWritten([m]) == [] && MadeIn2024([m]) == [m]
  {
    var m := Record("Challengers", 40, "Drama", 131, YearText("2024"));
    assert [m][..0] == [];
  }

  /** The list with the year compared as text, as the command-line report
      does. */
  function MadeIn2024(s: seq<Record>): (r: seq<Record>)
    ensures var all := MadeIn(s, YearText("2024"));
      r <= all && |r| == if |all| < 5 then |all| else 5
    ensures forall m :: m in r ==> m in s && m.year == YearText("2024")
  {
    var all := MadeIn(s, YearText("2024"));
    PrefixMembers(FirstFive(all), all);
    FirstFive(all)
  }

  lemma {:induction false} MadeInRanked(s: seq<Record>, y: Year, desc: bool)
    requires RankedByRating(s, desc)
    ensures RankedByRating(MadeIn(s, y), desc)
  {
    if s != [] {
      var init, m := s[..|s| - 1], s[|s| - 1];
      assert RankedByRating(init, desc);
      MadeInRanked(init, y, desc);
      var p := MadeIn(init, y);
      forall i | 0 <= i < |p| ensures if desc then p[i].rating >= m.rating else p[i].rating <= m.rating {
        assert p[i] in init;
        var k :| 0 <= k < |init| && init[k] == p[i];
        assert s[k] == p[i];
      }
    }
  }

  /** The corrected list holds five 2024 records unless there are fewer,
      and on the list ranked best first no 2024 record left out is rated
      above one that was kept. */
  lemma MadeIn2024IsBestOf2024(s: seq<Record>)
    ensures |MadeIn2024(s)| == 5 || MadeIn2024(s) == MadeIn(s, YearText("2024"))
    ensures RankedByRating(s, true) ==>
              forall i, j :: 0 <= i < |MadeIn2024(s)| <= j < |MadeIn(s, YearText("2024"))| ==>
                MadeIn2024(s)[i].rating >= MadeIn(s, YearText("2024"))[j].rating
  {
    if RankedByRating(s, true) {
      MadeInRanked(s, YearText("2024"), true);
    }
  }

  /** The report the handler builds (the actor, director, week and day
      summaries are not part of this model). */
  datatype Report = Report(
    top: seq<Record>,
    least: seq<Record>,
    madeIn2024: seq<Record>,
    genres: map<string, Choice>,
    totalMinutes: int)

  /** The body of upload_file once the file is saved: scan the diary with
      the loaded cache (updated in place and then saved), build the genre
      dictionary and take the slices. The made-in-2024 list is the
      corrected one, MadeIn2024; the line as written gives
      MadeIn2024AsWritten(sorted) instead. */
  method UploadReport(rows: seq<Row>, cache: MovieCache, env: Env) returns (report: Report)
    modifies cache
    ensures var st := Scan(rows, env, old(cache.entries));
            var sorted := Sort(st.movies, ByRatingDesc);
      && cache.entries == st.cache
      && report == Report(FirstFive(sorted), LastFive(sorted), MadeIn2024(sorted), GenresDict(sorted), st.total)
  {
    var sorted, total := GetMovies2024SortedByRating(rows, cache, env);
    var genres := BuildGenresDict(sorted);
    report := Report(FirstFive(sorted), LastFive(sorted), MadeIn2024(sorted), genres, total);
  }
}
