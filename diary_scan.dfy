/** get_movies_from_2024_sorted_by_rating: one pass over the diary rows
    that keeps the 2024 entries, skips repeated titles, enriches each new
    title through the cache-first lookup, fans it out into one record per
    genre, sums the runtimes and finally sorts by rating, highest first. */
module DiaryScan {
  import opened MovieTypes
  import opened StableSort
  import opened Metadata

  /** One CSV row: its fields as text (date, title, ..., ..., rating). */
  type Row = seq<string>

  /** A date as `datetime.strptime(field, '%Y-%m-%d')` yields it; the scan
      reads only its year. */
  datatype Date = Date(year: int)

  /** The pieces the scan calls but this model does not look inside:
      the date parser (None stands for its ValueError), `float` on the
      rating field (ratings in tenths; None stands for its ValueError)
      and the metadata web service. */
  datatype Env = Env(parseDate: string -> Option<Date>, parseRating: string -> Option<int>, service: string -> Response)

  const TargetYear := 2024

  // ---------------------------------------------------------------------
  // Field parsing

  /** `float(field) if field else 0`: an empty rating field is unrated. */
  function RatingOf(field: string, env: Env): Option<int>
  {
    if field == "" then Some(0) else env.parseRating(field)
  }

  /** `s.split(' ')[0]`: everything before the first space. */
  function FirstWord(s: string): (w: string)
    ensures w <= s
    ensures forall i :: 0 <= i < |w| ==> w[i] != ' '
    ensures |w| < |s| ==> s[|w|] == ' '
  {
    if s == [] || s[0] == ' ' then [] else [s[0]] + FirstWord(s[1..])
  }

  predicate IsDigit(c: char)
  {
    '0' <= c <= '9'
  }

  predicate AllDigits(s: string)
  {
    forall i :: 0 <= i < |s| ==> IsDigit(s[i])
  }

  /** The value of a string of decimal digits. */
  function DigitsValue(ds: string): nat
    requires AllDigits(ds)
  {
    if ds == [] then 0 else DigitsValue(ds[..|ds| - 1]) * 10 + (ds[|ds| - 1] - '0') as int
  }

  /** A sign character. */
  predicate IsSign(c: char)
  {
    c == '+' || c == '-'
  }

  /** The words `int` accepts here: one or more decimal digits, optionally
      preceded by a sign. */
  predicate IsIntWord(w: string)
  {
    (w != [] && AllDigits(w)) || (|w| >= 2 && IsSign(w[0]) && AllDigits(w[1..]))
  }

  /** `int(w)` on a word without spaces: an optional sign and at least one
      decimal digit; anything else raises ValueError (None). */
  function ParseInt(w: string): (r: Option<int>)
    ensures r.Some? <==> IsIntWord(w)
    ensures w != [] && AllDigits(w) ==> r == Some(DigitsValue(w))
    ensures |w| >= 2 && w[0] == '+' && AllDigits(w[1..]) ==> r == Some(DigitsValue(w[1..]))
    ensures |w| >= 2 && w[0] == '-' && AllDigits(w[1..]) ==> r == Some(-(DigitsValue(w[1..]) as int))
  {
    if |w| > 0 && (w[0] == '+' || w[0] == '-') then
      var body := w[1..];
      if body != [] && AllDigits(body) then
        var v: int := DigitsValue(body);
        Some(if w[0] == '-' then -v else v)
      else None
    else if w != [] && AllDigits(w) then Some(DigitsValue(w))
    else None
  }

  /** `int(runtime.split(' ')[0]) if runtime != "N/A" else 0`. */
  function RuntimeMinutes(runtime: string): (r: Option<int>)
    ensures runtime == "N/A" ==> r == Some(0)
  {
    if runtime == "N/A" then Some(0) else ParseInt(FirstWord(runtime))
  }

  /** Decimal rendering of a natural number, as in "<N> min". */
  function ShowNat(n: nat): string
  {
    if n < 10 then [(n + '0' as int) as char] else ShowNat(n / 10) + [(n % 10 + '0' as int) as char]
  }

  lemma {:induction false} ShowNatDigits(n: nat)
    ensures ShowNat(n) != [] && AllDigits(ShowNat(n)) && DigitsValue(ShowNat(n)) == n
  {
    if n >= 10 {
      ShowNatDigits(n / 10);
      var s := ShowNat(n);
      assert s[..|s| - 1] == ShowNat(n / 10);
    }
  }

  /** A runtime written "<N> min" (or N followed by any other unit text)
      is N minutes. */
  lemma RuntimeOfMinutesText(n: nat, unit: string)
    ensures RuntimeMinutes(ShowNat(n) + " " + unit) == Some(n)
  {
    ShowNatDigits(n);
    var s := ShowNat(n) + " " + unit;
    assert s != "N/A" by {
      assert s[0] == ShowNat(n)[0];
      assert IsDigit(ShowNat(n)[0]);
    }
    FirstWordUpToSpace(ShowNat(n), unit);
  }

  /** `str(n)`: the decimal digits, with a minus sign when negative. */
  function ShowInt(n: int): string
  {
    if n < 0 then "-" + ShowNat(-n) else ShowNat(n)
  }

  /** `int` reads back what `str` writes, for every integer. */
  lemma ParseIntShowInt(n: int)
    ensures ParseInt(ShowInt(n)) == Some(n)
  {
    if n < 0 {
      ShowNatDigits(-n);
      assert ShowInt(n)[1..] == ShowNat(-n);
    } else {
      ShowNatDigits(n);
    }
  }

  lemma {:induction false} FirstWordUpToSpace(w: string, rest: string)
    requires forall i :: 0 <= i < |w| ==> w[i] != ' '
    ensures FirstWord(w + " " + rest) == w
  {
    if w != [] {
      FirstWordUpToSpace(w[1..], rest);
      assert (w + " " + rest)[1..] == w[1..] + " " + rest;
    }
  }

  // ---------------------------------------------------------------------
  // The scan as a fold over the rows

  /** Why the scan stopped early: a 2024 row too short to have a rating
      column (IndexError), or an exception other than ValueError from the
      lookup. Both leave the loop through `except Exception: break`. */
  datatype Stop = RowTooShort | LookupFailed(failure: Failure)

  /** The loop's variables (`movies`, `total_runtime_minutes`,
      `seen_movies`, the caller's cache), whether the loop has broken out,
      how many times the web service was asked and how many of those
      requests failed. */
  datatype ScanState = ScanState(
    movies: seq<Record>,
    total: int,
    seen: set<string>,
    cache: map<string, CacheEntry>,
    stop: Option<Stop>,
    fetches: nat,
    failedRequests: nat)

  function Start(cache: map<string, CacheEntry>): ScanState
  {
    ScanState([], 0, {}, cache, None, 0, 0)
  }

  /** The records appended for one title, one per genre, in genre order. */
  function FanOut(title: string, rating: int, genres: seq<string>, minutes: int, year: Year): (r: seq<Record>)
    ensures |r| == |genres|
    ensures forall k :: 0 <= k < |r| ==> r[k] == Record(title, rating, genres[k], minutes, year)
  {
    if genres == [] then []
    else FanOut(title, rating, genres[..|genres| - 1], minutes, year)
         + [Record(title, rating, genres[|genres| - 1], minutes, year)]
  }

  /** One iteration of the loop body, for one row: a row whose date does
      not parse, or is not in 2024, or whose rating does not parse is
      skipped (ValueError: continue); a 2024 row without a rating column
      breaks out of the loop (IndexError). */
  function Step(st: ScanState, row: Row, env: Env): ScanState
  {
    if st.stop.Some? || row == [] then st
    else match env.parseDate(row[0])
      case None => st
      case Some(date) =>
        if date.year != TargetYear then st
        else if |row| < 5 then st.(stop := Some(RowTooShort))
        else match RatingOf(row[4], env)
          case None => st
          case Some(rating) => Visit(st, row[1], rating, env.service)
  }

  /** A counted row: a title already seen is skipped; a new one is marked
      seen and looked up. A failed lookup breaks out of the loop unless it
      raised a ValueError, which skips the row. */
  function Visit(st: ScanState, title: string, rating: int, service: string -> Response): ScanState
  {
    if title in st.seen then st
    else
      var res := Resolve(st.cache, title, service);
      var next := st.(seen := st.seen + {title}, cache := res.cache,
                      fetches := st.fetches + (if res.fetched then 1 else 0),
                      failedRequests := st.failedRequests + if res.fetched && res.outcome.Err? then 1 else 0);
      match res.outcome
      case Err(f) => if IsValueError(f) then next else next.(stop := Some(LookupFailed(f)))
      case Ok(d) => Enrich(next, title, rating, d)
  }

  /** `if genres and runtime:` adds the runtime once and one record per
      genre; a runtime that `int` rejects skips the title (ValueError). */
  function Enrich(st: ScanState, title: string, rating: int, d: Details): ScanState
  {
    if d.genres == [] || d.runtime == "" then st
    else match RuntimeMinutes(d.runtime)
      case None => st
      case Some(minutes) =>
        st.(total := st.total + minutes,
            movies := st.movies + FanOut(title, rating, d.genres, minutes, d.year))
  }

  /** The state after the loop has seen every row (or broken out). */
  function Scan(rows: seq<Row>, env: Env, cache: map<string, CacheEntry>): ScanState
  {
    if rows == [] then Start(cache)
    else Step(Scan(rows[..|rows| - 1], env, cache), rows[|rows| - 1], env)
  }

  lemma ScanLast(rows: seq<Row>, i: nat, env: Env, cache: map<string, CacheEntry>)
    requires i < |rows|
    ensures Scan(rows[..i + 1], env, cache) == Step(Scan(rows[..i], env, cache), rows[i], env)
  {
    assert rows[..i + 1][..i] == rows[..i];
  }

  // ---------------------------------------------------------------------
  // The loop itself

  /** `for genre in genres: movies.append((title, rating, genre,
      runtime_minutes, year))`. */
  method AppendFanOut(movies: seq<Record>, title: string, rating: int, genres: seq<string>, minutes: int, year: Year)
    returns (r: seq<Record>)
    ensures r == movies + FanOut(title, rating, genres, minutes, year)
  {
    r := movies;
    for j := 0 to |genres|
      invariant r == movies + FanOut(title, rating, genres[..j], minutes, year)
    {
      assert genres[..j + 1][..j] == genres[..j];
      r := r + [Record(title, rating, genres[j], minutes, year)];
    }
    assert genres[..|genres|] == genres;
  }

  /** The body of the `for row in reader` loop for one row. It returns
      the loop variables after the row and, when the row raised something
      other than ValueError, why the loop breaks out. */
  method ScanRow(row: Row, cache: MovieCache, env: Env,
                 found: seq<Record>, total: int, seen: set<string>, ghost fetches: nat, ghost failed: nat)
    returns (found': seq<Record>, total': int, seen': set<string>, stop: Option<Stop>,
             ghost fetches': nat, ghost failed': nat)
    modifies cache
    ensures Step(ScanState(found, total, seen, old(cache.entries), None, fetches, failed), row, env)
            == ScanState(found', total', seen', cache.entries, stop, fetches', failed')
  {
    found', total', seen', stop, fetches', failed' := found, total, seen, None, fetches, failed;
    if row == [] {
      return;
    }
    var date := env.parseDate(row[0]);
    if date.None? || date.value.year != TargetYear {
      // strptime raised ValueError, or the entry is from another year
      return;
    }
    if |row| < 5 {
      // row[4] raises IndexError
      stop := Some(RowTooShort);
      return;
    }
    var rating := RatingOf(row[4], env);
    if rating.None? {
      return;
    }
    var title := row[1];
    if title in seen {
      return;
    }
    seen' := seen + {title};
    ghost var miss := title !in cache.entries;
    var details := cache.GetMovieDetails(title, env.service);
    if miss {
      fetches' := fetches + 1;
    }
    if details.Err? {
      if miss {
        failed' := failed + 1;
      }
      if !IsValueError(details.failure) {
        stop := Some(LookupFailed(details.failure));
      }
      return;
    }
    var d := details.details;
    if d.genres != [] && d.runtime != "" {
      var minutes := RuntimeMinutes(d.runtime);
      if minutes.Some? {
        total' := total + minutes.value;
        found' := AppendFanOut(found, title, rating.value, d.genres, minutes.value, d.year);
      }
    }
  }

  /** The scan over the rows, then the in-place sort by rating, highest
      first. The caller's cache is updated by the lookups. */
  method GetMovies2024SortedByRating(rows: seq<Row>, cache: MovieCache, env: Env)
    returns (movies: seq<Record>, total: int)
    modifies cache
    ensures var st := Scan(rows, env, old(cache.entries));
            movies == Sort(st.movies, ByRatingDesc) && total == st.total && cache.entries == st.cache
  {
    ghost var cache0 := cache.entries;
    var found: seq<Record> := [];
    total := 0;
    var seen: set<string> := {};
    ghost var fetches: nat := 0;
    ghost var failed: nat := 0;
    var i := 0;
    while i < |rows|
      invariant 0 <= i <= |rows|
      invariant Scan(rows[..i], env, cache0) == ScanState(found, total, seen, cache.entries, None, fetches, failed)
    {
      ScanLast(rows, i, env, cache0);
      var stop;
      found, total, seen, stop, fetches, failed := ScanRow(rows[i], cache, env, found, total, seen, fetches, failed);
      i := i + 1;
      if stop.Some? {
        // except Exception: break
        ScanStopIsFinal(rows, i, env, cache0);
        break;
      }
    }
    assert i == |rows| ==> rows[..i] == rows;
    movies := Sort(found, ByRatingDesc);
  }

  // ---------------------------------------------------------------------
  // Properties of the scan

  /** Once the loop has broken out, no later row changes anything: the
      records gathered before the failure are what is returned. */
  lemma {:induction false} ScanStopIsFinal(rows: seq<Row>, i: nat, env: Env, cache: map<string, CacheEntry>)
    requires i <= |rows|
    requires Scan(rows[..i], env, cache).stop.Some?
    ensures Scan(rows, env, cache) == Scan(rows[..i], env, cache)
  {
    if i < |rows| {
      var init := rows[..|rows| - 1];
      assert init[..i] == rows[..i];
      ScanStopIsFinal(init, i, env, cache);
    } else {
      assert rows[..i] == rows;
    }
  }

  /** Each step only adds: records are appended, titles are marked seen,
      cache entries are added and never changed, and a stopped scan stays
      as it is. */
  lemma StepGrows(st: ScanState, row: Row, env: Env)
    ensures var st' := Step(st, row, env);
      && st.movies <= st'.movies
      && st.seen <= st'.seen
      && (forall t :: t in st.cache ==> t in st'.cache && st'.cache[t] == st.cache[t])
      && st.fetches <= st'.fetches
      && (st.stop.Some? ==> st' == st)
  {
  }

  /** The state after a prefix of the rows is contained in the final state:
      the records of the prefix open the final list, and so on. */
  lemma {:induction false} ScanGrows(rows: seq<Row>, i: nat, env: Env, cache: map<string, CacheEntry>)
    requires i <= |rows|
    ensures var a, b := Scan(rows[..i], env, cache), Scan(rows, env, cache);
      && a.movies <= b.movies
      && a.seen <= b.seen
      && (forall t :: t in a.cache ==> t in b.cache && b.cache[t] == a.cache[t])
      && a.fetches <= b.fetches
      && (a.stop.Some? ==> b == a)
  {
    if i == |rows| {
      assert rows[..i] == rows;
    } else {
      var init := rows[..|rows| - 1];
      assert init[..i] == rows[..i];
      ScanGrows(init, i, env, cache);
      StepGrows(Scan(init, env, cache), rows[|rows| - 1], env);
    }
  }

  /** The conditions under which a row adds records: the scan is still
      running, the row is a 2024 row with a parsable rating, its title is
      new, the lookup succeeds with non-empty genres and runtime, and the
      runtime parses. */
  predicate Appends(st: ScanState, row: Row, env: Env)
  {
    && st.stop.None?
    && |row| >= 5
    && env.parseDate(row[0]).Some?
    && env.parseDate(row[0]).value.year == TargetYear
    && RatingOf(row[4], env).Some?
    && row[1] !in st.seen
    && var res := Resolve(st.cache, row[1], env.service);
       && res.outcome.Ok?
       && res.outcome.details.genres != []
       && res.outcome.details.runtime != ""
       && RuntimeMinutes(res.outcome.details.runtime).Some?
  }

  /** A row either leaves the records and the total alone, or it is a new
      title that adds exactly one record per genre, all with the row's
      rating and the looked-up runtime and year, and adds its runtime to
      the total exactly once. */
  lemma StepAddsOneTitle(st: ScanState, row: Row, env: Env)
    ensures !Appends(st, row, env) ==>
              Step(st, row, env).movies == st.movies && Step(st, row, env).total == st.total
    ensures Appends(st, row, env) ==>
              var d := Resolve(st.cache, row[1], env.service).outcome.details;
              var minutes := RuntimeMinutes(d.runtime).value;
              && Step(st, row, env).movies
                   == st.movies + FanOut(row[1], RatingOf(row[4], env).value, d.genres, minutes, d.year)
              && Step(st, row, env).total == st.total + minutes
              && Step(st, row, env).seen == st.seen + {row[1]}
  {
  }

  /** Each distinct title's runtime, counted at its first record. */
  function RuntimeOfTitles(ms: seq<Record>): int
  {
    if ms == [] then 0
    else
      var init, m := ms[..|ms| - 1], ms[|ms| - 1];
      RuntimeOfTitles(init) + if m.title in Titles(init) then 0 else m.runtime
  }

  lemma {:induction false} RuntimeOfTitlesFanOut(ms: seq<Record>, title: string, rating: int,
                                                genres: seq<string>, minutes: int, year: Year)
    requires genres != [] && title !in Titles(ms)
    ensures RuntimeOfTitles(ms + FanOut(title, rating, genres, minutes, year)) == RuntimeOfTitles(ms) + minutes
  {
    var n := |genres|;
    var r := ms + FanOut(title, rating, genres, minutes, year);
    var last := Record(title, rating, genres[n - 1], minutes, year);
    var prefix := ms + FanOut(title, rating, genres[..n - 1], minutes, year);
    assert r == prefix + [last];
    assert r[..|r| - 1] == prefix;
    if n == 1 {
      assert prefix == ms;
    } else {
      RuntimeOfTitlesFanOut(ms, title, rating, genres[..n - 1], minutes, year);
      assert prefix[|ms|].title == title;
      assert title in Titles(prefix);
    }
  }

  /** Records with the same title come from one diary entry: they agree on
      rating, runtime and year. */
  predicate TitlesAgree(ms: seq<Record>)
  {
    forall i, j :: 0 <= i < |ms| && 0 <= j < |ms| && ms[i].title == ms[j].title ==>
      ms[i].rating == ms[j].rating && ms[i].runtime == ms[j].runtime && ms[i].year == ms[j].year
  }

  lemma StepKeepsTitlesAgree(st: ScanState, row: Row, env: Env)
    requires Titles(st.movies) <= st.seen && TitlesAgree(st.movies)
    ensures Titles(Step(st, row, env).movies) <= Step(st, row, env).seen
    ensures TitlesAgree(Step(st, row, env).movies)
  {
    StepAddsOneTitle(st, row, env);
    StepGrows(st, row, env);
    if Appends(st, row, env) {
      var ms := Step(st, row, env).movies;
      var n := |st.movies|;
      forall i | 0 <= i < n ensures ms[i].title != row[1] {
        assert ms[i] in st.movies;
      }
      forall m | m in ms ensures m.title in Step(st, row, env).seen {
        var k :| 0 <= k < |ms| && ms[k] == m;
        if k < n {
          assert st.movies[k] == m;
        }
      }
    }
  }

  /** Deduplication: in the scan's records every title belongs to a title
      marked seen, and all records of one title agree on rating, runtime
      and year, however many genres it was fanned out into. */
  lemma {:induction false} ScanTitlesAgree(rows: seq<Row>, env: Env, cache: map<string, CacheEntry>)
    ensures Titles(Scan(rows, env, cache).movies) <= Scan(rows, env, cache).seen
    ensures TitlesAgree(Scan(rows, env, cache).movies)
  {
    if rows != [] {
      ScanTitlesAgree(rows[..|rows| - 1], env, cache);
      StepKeepsTitlesAgree(Scan(rows[..|rows| - 1], env, cache), rows[|rows| - 1], env);
    }
  }

  /** Runtime is not double counted under fan-out: the total is the sum of
      the runtimes of the distinct titles among the records. */
  lemma {:induction false} ScanTotalCountsEachTitleOnce(rows: seq<Row>, env: Env, cache: map<string, CacheEntry>)
    ensures Scan(rows, env, cache).total == RuntimeOfTitles(Scan(rows, env, cache).movies)
  {
    if rows != [] {
      var init := rows[..|rows| - 1];
      var st := Scan(init, env, cache);
      var row := rows[|rows| - 1];
      ScanTotalCountsEachTitleOnce(init, env, cache);
      ScanTitlesAgree(init, env, cache);
      StepAddsOneTitle(st, row, env);
      if Appends(st, row, env) {
        var d := Resolve(st.cache, row[1], env.service).outcome.details;
        RuntimeOfTitlesFanOut(st.movies, row[1], RatingOf(row[4], env).value, d.genres,
                              RuntimeMinutes(d.runtime).value, d.year);
      }
    }
  }

  /** The cache invariant of the scan, relative to the cache it started
      with: old keys keep their values, new keys are seen titles holding
      what the web service answered. */
  ghost predicate CacheExtends(st: ScanState, env: Env, cache: map<string, CacheEntry>)
  {
    && (forall t :: t in cache ==> t in st.cache && st.cache[t] == cache[t])
    && (forall t :: t in st.cache && t !in cache ==>
          t in st.seen && Answer(env.service(t)).Ok? && st.cache[t] == EntryOf(Answer(env.service(t)).details))
  }

  lemma VisitKeepsCacheExtends(st: ScanState, title: string, rating: int, env: Env, cache: map<string, CacheEntry>)
    requires CacheExtends(st, env, cache)
    ensures CacheExtends(Visit(st, title, rating, env.service), env, cache)
  {
    var st' := Visit(st, title, rating, env.service);
    if title !in st.seen {
      var res := Resolve(st.cache, title, env.service);
      assert st'.cache == res.cache && st'.seen == st.seen + {title};
    }
  }

  lemma StepKeepsCacheExtends(st: ScanState, row: Row, env: Env, cache: map<string, CacheEntry>)
    requires CacheExtends(st, env, cache)
    ensures CacheExtends(Step(st, row, env), env, cache)
  {
    if st.stop.None? && row != [] && env.parseDate(row[0]).Some? && env.parseDate(row[0]).value.year == TargetYear
       && |row| >= 5 && RatingOf(row[4], env).Some? {
      VisitKeepsCacheExtends(st, row[1], RatingOf(row[4], env).value, env, cache);
    }
  }

  /** Every key of the cache before the scan keeps its value; every key the
      scan adds is a title it marked seen, holding what the web service
      answered for it. */
  lemma {:induction false} ScanCacheGrowth(rows: seq<Row>, env: Env, cache: map<string, CacheEntry>)
    ensures CacheExtends(Scan(rows, env, cache), env, cache)
  {
    if rows != [] {
      var init := rows[..|rows| - 1];
      ScanCacheGrowth(init, env, cache);
      StepKeepsCacheExtends(Scan(init, env, cache), rows[|rows| - 1], env, cache);
    }
  }

  // ---------------------------------------------------------------------
  // Which rows the records come from

  /** A row the scan counts: a 2024 date, a rating column and a rating that
      parses (or is empty). */
  predicate Counted(row: Row, env: Env)
  {
    && |row| >= 5
    && env.parseDate(row[0]).Some?
    && env.parseDate(row[0]).value.year == TargetYear
    && RatingOf(row[4], env).Some?
  }

  /** The titles of the counted rows. */
  function CountedTitles(rows: seq<Row>, env: Env): set<string>
  {
    set k | 0 <= k < |rows| && Counted(rows[k], env) :: rows[k][1]
  }

  lemma CountedTitlesLast(rows: seq<Row>, env: Env)
    requires rows != []
    ensures var init, row := rows[..|rows| - 1], rows[|rows| - 1];
      CountedTitles(rows, env) == CountedTitles(init, env) + if Counted(row, env) then {row[1]} else {}
  {
    var init := rows[..|rows| - 1];
    forall k | 0 <= k < |init| ensures init[k] == rows[k] { }
  }

  lemma StepSeen(st: ScanState, row: Row, env: Env)
    ensures Step(st, row, env).stop.None? ==>
              st.stop.None? && Step(st, row, env).seen == st.seen + if Counted(row, env) then {row[1]} else {}
  {
  }

  /** While the scan runs, the seen set is exactly the set of titles of the
      counted rows so far: a row whose rating does not parse raises before
      its title is marked seen. */
  lemma {:induction false} ScanSeenIsCountedTitles(rows: seq<Row>, env: Env, cache: map<string, CacheEntry>)
    ensures Scan(rows, env, cache).stop.None? ==> Scan(rows, env, cache).seen == CountedTitles(rows, env)
  {
    if rows != [] {
      var init := rows[..|rows| - 1];
      ScanSeenIsCountedTitles(init, env, cache);
      StepSeen(Scan(init, env, cache), rows[|rows| - 1], env);
      CountedTitlesLast(rows, env);
    }
  }

  /** Row k is the first counted row with its title. */
  ghost predicate FirstCountedAt(rows: seq<Row>, k: int, env: Env)
  {
    && 0 <= k < |rows|
    && Counted(rows[k], env)
    && forall j :: 0 <= j < k ==> !(Counted(rows[j], env) && rows[j][1] == rows[k][1])
  }

  /** Record m carries the title and rating of the first counted row with
      that title. */
  ghost predicate FromFirstEntry(rows: seq<Row>, env: Env, m: Record)
  {
    exists k :: FirstCountedAt(rows, k, env) && rows[k][1] == m.title && RatingOf(rows[k][4], env) == Some(m.rating)
  }

  lemma FromFirstEntryExtends(rows: seq<Row>, env: Env, m: Record)
    requires rows != [] && FromFirstEntry(rows[..|rows| - 1], env, m)
    ensures FromFirstEntry(rows, env, m)
  {
    var init := rows[..|rows| - 1];
    var k :| FirstCountedAt(init, k, env) && init[k][1] == m.title && RatingOf(init[k][4], env) == Some(m.rating);
    assert forall j :: 0 <= j <= k ==> init[j] == rows[j];
    assert FirstCountedAt(rows, k, env);
  }

  /** Only 2024 rows contribute, and of the rows with the same title only
      the first counted one: every record carries that row's title and
      rating. */
  lemma {:induction false} ScanRecordsComeFromFirstEntries(rows: seq<Row>, env: Env, cache: map<string, CacheEntry>)
    ensures forall m :: m in Scan(rows, env, cache).movies ==> FromFirstEntry(rows, env, m)
  {
    if rows != [] {
      var init := rows[..|rows| - 1];
      var row := rows[|rows| - 1];
      var st := Scan(init, env, cache);
      ScanRecordsComeFromFirstEntries(init, env, cache);
      StepAddsOneTitle(st, row, env);
      forall m | m in st.movies ensures FromFirstEntry(rows, env, m) {
        FromFirstEntryExtends(rows, env, m);
      }
      if Appends(st, row, env) {
        ScanSeenIsCountedTitles(init, env, cache);
        var k := |rows| - 1;
        forall j | 0 <= j < k ensures !(Counted(rows[j], env) && rows[j][1] == rows[k][1]) {
          assert rows[j] == init[j];
          if Counted(rows[j], env) {
            assert rows[j][1] in CountedTitles(init, env);
          }
        }
        assert FirstCountedAt(rows, k, env);
        var d := Resolve(st.cache, row[1], env.service).outcome.details;
        var added := FanOut(row[1], RatingOf(row[4], env).value, d.genres, RuntimeMinutes(d.runtime).value, d.year);
        forall m | m in added ensures FromFirstEntry(rows, env, m) {
          var i :| 0 <= i < |added| && added[i] == m;
        }
      }
    }
  }

  // ---------------------------------------------------------------------
  // Running again with the cache the first run left behind

  /** Run b is run a replayed against the warm cache: the same records,
      total, seen titles, stop and failed requests, with the warm cache
      throughout; it has asked the web service once per request of run a
      that failed, and for nothing else. */
  ghost predicate Replays(a: ScanState, b: ScanState, warm: map<string, CacheEntry>)
  {
    b == a.(cache := warm, fetches := a.failedRequests)
  }

  /** The warm cache extends every cache of the first run, and its other
      keys are titles the service answered. */
  ghost predicate WarmFor(a: ScanState, service: string -> Response, warm: map<string, CacheEntry>)
  {
    && (forall t :: t in a.cache ==> t in warm && warm[t] == a.cache[t])
    && (forall t :: t in warm && t !in a.cache ==> Answer(service(t)).Ok?)
  }

  /** Against the warm cache, a lookup gives the same outcome and leaves
      the warm cache alone; it asks the service exactly when the first
      run asked and failed. */
  lemma ResolveReplays(cache: map<string, CacheEntry>, title: string, service: string -> Response,
                       warm: map<string, CacheEntry>)
    requires var ra := Resolve(cache, title, service);
      && (forall t :: t in ra.cache ==> t in warm && warm[t] == ra.cache[t])
      && (forall t :: t in warm && t !in cache ==> Answer(service(t)).Ok?)
    ensures var ra := Resolve(cache, title, service);
      Resolve(warm, title, service) == Resolution(ra.outcome, warm, ra.fetched && ra.outcome.Err?)
  {
    var ra := Resolve(cache, title, service);
    if title in cache {
      assert warm[title] == cache[title];
    } else if Answer(service(title)).Ok? {
      // the first run cached the answer
      assert warm[title] == EntryOf(Answer(service(title)).details);
    }
  }

  lemma {:induction false} VisitWithResolution(a: ScanState, b: ScanState, title: string, rating: int, service: string -> Response,
                            warm: map<string, CacheEntry>)
    requires Replays(a, b, warm) && title !in a.seen
    requires var ra := Resolve(a.cache, title, service);
      Resolve(warm, title, service) == Resolution(ra.outcome, warm, ra.fetched && ra.outcome.Err?)
    ensures Replays(Visit(a, title, rating, service), Visit(b, title, rating, service), warm)
  {
  }

  lemma {:induction false} VisitReplays(a: ScanState, b: ScanState, title: string, rating: int, service: string -> Response,
                     warm: map<string, CacheEntry>)
    requires Replays(a, b, warm) && a.stop.None?
    requires WarmFor(a, service, warm) && WarmFor(Visit(a, title, rating, service), service, warm)
    ensures Replays(Visit(a, title, rating, service), Visit(b, title, rating, service), warm)
  {
    if title !in a.seen {
      VisitCache(a, title, rating, service);
      ResolveReplays(a.cache, title, service, warm);
      VisitWithResolution(a, b, title, rating, service, warm);
    }
  }

  /** A new title leaves in the cache what its lookup leaves there. */
  lemma {:induction false} VisitCache(st: ScanState, title: string, rating: int, service: string -> Response)
    requires title !in st.seen
    ensures Visit(st, title, rating, service).cache == Resolve(st.cache, title, service).cache
  {
  }

  lemma StepReplays(a: ScanState, b: ScanState, row: Row, env: Env, warm: map<string, CacheEntry>)
    requires Replays(a, b, warm)
    requires WarmFor(a, env.service, warm) && WarmFor(Step(a, row, env), env.service, warm)
    ensures Replays(Step(a, row, env), Step(b, row, env), warm)
  {
    if a.stop.None? && row != [] && env.parseDate(row[0]).Some? && env.parseDate(row[0]).value.year == TargetYear
       && |row| >= 5 && RatingOf(row[4], env).Some? {
      VisitReplays(a, b, row[1], RatingOf(row[4], env).value, env.service, warm);
    }
  }

  lemma WarmForPrefix(rows: seq<Row>, i: nat, env: Env, cache: map<string, CacheEntry>)
    requires i <= |rows|
    ensures WarmFor(Scan(rows[..i], env, cache), env.service, Scan(rows, env, cache).cache)
  {
    var a := Scan(rows[..i], env, cache);
    var warm := Scan(rows, env, cache).cache;
    ScanGrows(rows, i, env, cache);
    ScanCacheGrowth(rows[..i], env, cache);
    ScanCacheGrowth(rows, env, cache);
    forall t | t in warm && t !in a.cache ensures Answer(env.service(t)).Ok? {
      assert t !in cache;
    }
  }

  lemma {:induction false} ScanReplays(rows: seq<Row>, i: nat, env: Env, cache: map<string, CacheEntry>)
    requires i <= |rows|
    ensures var warm := Scan(rows, env, cache).cache;
      Replays(Scan(rows[..i], env, cache), Scan(rows[..i], env, warm), warm)
  {
    var warm := Scan(rows, env, cache).cache;
    if i > 0 {
      ScanReplays(rows, i - 1, env, cache);
      ScanLast(rows, i - 1, env, cache);
      ScanLast(rows, i - 1, env, warm);
      WarmForPrefix(rows, i - 1, env, cache);
      WarmForPrefix(rows, i, env, cache);
      StepReplays(Scan(rows[..i - 1], env, cache), Scan(rows[..i - 1], env, warm), rows[i - 1], env, warm);
    }
  }

  lemma {:induction false} FailedRequestsAreRequests(rows: seq<Row>, env: Env, cache: map<string, CacheEntry>)
    ensures Scan(rows, env, cache).failedRequests <= Scan(rows, env, cache).fetches
  {
    if rows != [] {
      FailedRequestsAreRequests(rows[..|rows| - 1], env, cache);
    }
  }

  /** Running the scan again over the same diary with the cache the first
      run saved gives the same records, total, seen titles, cache and stop.
      It asks the web service again only for the titles whose request
      failed the first time, so never when every request was answered. */
  lemma WarmCacheRerun(rows: seq<Row>, env: Env, cache: map<string, CacheEntry>)
    ensures var first := Scan(rows, env, cache);
            var second := Scan(rows, env, first.cache);
      && second == first.(fetches := first.failedRequests)
      && first.failedRequests <= first.fetches
  {
    ScanReplays(rows, |rows|, env, cache);
    FailedRequestsAreRequests(rows, env, cache);
    assert rows[..|rows|] == rows;
  }

  // ---------------------------------------------------------------------
  // A scan that never asks the service does not depend on it

  lemma VisitIgnoresService(st: ScanState, title: string, rating: int, s1: string -> Response, s2: string -> Response)
    requires title in st.seen || title in st.cache
    ensures Visit(st, title, rating, s2) == Visit(st, title, rating, s1)
  {
  }

  lemma StepIgnoresService(st: ScanState, row: Row, env: Env, s2: string -> Response)
    requires Step(st, row, env).fetches == st.fetches
    ensures Step(st, row, env.(service := s2)) == Step(st, row, env)
  {
    if st.stop.None? && |row| >= 5 && env.parseDate(row[0]).Some? && env.parseDate(row[0]).value.year == TargetYear
       && RatingOf(row[4], env).Some? {
      VisitIgnoresService(st, row[1], RatingOf(row[4], env).value, env.service, s2);
    }
  }

  /** A scan that made no request gives the same result whatever the
      service would have answered. */
  lemma {:induction false} ScanIgnoresService(rows: seq<Row>, env: Env, cache: map<string, CacheEntry>, s2: string -> Response)
    requires Scan(rows, env, cache).fetches == 0
    ensures Scan(rows, env.(service := s2), cache) == Scan(rows, env, cache)
  {
    if rows != [] {
      var init := rows[..|rows| - 1];
      var a := Scan(init, env, cache);
      StepGrows(a, rows[|rows| - 1], env);
      ScanIgnoresService(init, env, cache, s2);
      StepIgnoresService(a, rows[|rows| - 1], env, s2);
    }
  }

  /** When every request of the first run was answered, the run with the
      saved cache makes no request at all, so it gives the first run's
      result whatever the service answers the second time. */
  lemma WarmCacheRerunAnyService(rows: seq<Row>, env: Env, cache: map<string, CacheEntry>, s2: string -> Response)
    ensures var first := Scan(rows, env, cache);
      first.failedRequests == 0 ==>
        Scan(rows, env.(service := s2), first.cache) == first.(fetches := 0)
  {
    var first := Scan(rows, env, cache);
    WarmCacheRerun(rows, env, cache);
    if first.failedRequests == 0 {
      ScanIgnoresService(rows, env, first.cache, s2);
    }
  }
}
