# letterboxd-wrapped in Dafny

A model of the ranking core of letterboxd-wrapped. This is a small
script and web handler that turn a Letterboxd diary export (one CSV row
per diary entry) into a year-in-review summary.

- **Scan and enrich.** The scan (`get_movies_from_2024_sorted_by_rating`) keeps the 2024 entries and skips repeated titles. Each new title is enriched through a cache-first lookup of the metadata service (`get_movie_details`). The title is fanned out into one record per genre. Runtimes are summed once per title. Finally the records are stable-sorted by rating, highest first.
- **Command-line report.** From that list, the `__main__` block of `wrapped.py` picks three lists:
  - the top five titles;
  - the top five titles released in 2024;
  - the five worst rated titles that have a rating.

  It also computes each genre's favourite (`get_favorite_movies_by_genre`).
- **Web handler.** `upload_file` in `app.py` folds the same list into a genre dictionary and takes three slices of it.

Modules, in dependency order:

- `MovieTypes` (movie_types.dfy): the record tuple, the year as Python sees it (text or number), the rating sort keys, and the sets of titles and genres.
- `StableSort` (stable_sort.dfy): Python's `list.sort(key=...)`, as a stable insertion sort. It is proved a permutation that is sorted by key, with equal keys kept in input order. `reverse=True` keeps elements with equal keys in their original order, so it is the same as the stable sort by the negated key.
- `Metadata` (metadata.dfy):
  - `get_movie_details` as the class `MovieCache`, whose method updates the caller's cache in place;
  - its specification `Resolve`;
  - the interpretation of a service response (`Answer`);
  - `split(', ')` of the genre text (`SplitGenres`), proved inverse to joining.
- `DiaryScan` (diary_scan.dfy):
  - the scan as a fold `Scan` over the rows, built from `Step` per row, `Visit` per counted title and `Enrich` per looked-up title, with `RatingOf` reading the rating field (`float(row[4]) if row[4] else 0`, wrapped.py:55);
  - the imperative loop `GetMovies2024SortedByRating`, proved equal to the fold and then sorted;
  - the lemmas about the fold: deduplication, runtime counted once, early stop, cache growth, provenance of each record, and the re-run with the saved cache.
- `Selections` (selections.dfy): the three five-title loops of the command-line report, and the common fold `Picked` they are proved against.
- `Favorites` (favorites.dfy): `get_favorite_movies_by_genre`, characterised as "the first record with the highest rating in each genre".
- `AppReport` (app_report.dfy): the `genres_dict` fold of `app.py` (`GenresDict`, app.py:33-37), the three slices, and the handler's report.
- `WrappedReport` (wrapped_report.dfy): the command-line report put together, and the agreement between the two front ends' genre favourites.

The diary rows are sequences of strings. Three things the code calls are parameters, bundled in `DiaryScan.Env`:

- the date parser: `None` is strptime's ValueError;
- the rating parser, giving ratings in tenths: `None` is float's ValueError;
- the metadata web service: a `Response` with status and decoded body, or an exception raised by the request.

The cache is a map from titles to entries. `load_cache` and `save_cache` are the caller's business: the methods take the loaded cache object and leave in it what is saved.

Exceptions follow the code's two `except` clauses.

- These skip the row (`except ValueError: continue`):
  - an unparsable date or rating;
  - an unparsable runtime number;
  - a body that is not JSON;
  - a malformed request URL.
- Everything else breaks out of the loop, and the records gathered so far are still sorted and returned:
  - a 2024 row with fewer than five columns (IndexError);
  - the four raises of `get_movie_details`;
  - a cached entry lacking a key (KeyError);
  - a failed connection.

## Model

| member | source | states |
|---|---|---|
| Metadata.Answer | wrapped.py:25-42 | The lookup succeeds exactly on a 200 response whose JSON body is not the request-limit error and has Genre, Runtime and Year. It then yields the Genre text split at ", " (parts that join back to it), with Runtime and Year (as text) unchanged. Each failure is stated: the limit error; a 200 body without the three fields (details not found); a body that is not JSON; an exception from the request itself, keeping whether it is a ValueError; 401; any other status. |
| Metadata.SplitGenres | wrapped.py:32 | `split(', ')` gives at least one part, the first a prefix of the text, and the parts joined with ", " are the original text. |
| Metadata.SplitPartsHaveNoSeparator | wrapped.py:32 | No part of the split contains ", ". |
| Metadata.SplitJoin | wrapped.py:32 | Splitting the join of parts free of ", " gives the parts back (the inverse of the above). |
| Metadata.EmptyGenreTextIsOneGenre | wrapped.py:32 | An empty Genre text is one empty genre, so `if genres` holds for it. |
| Metadata.Resolve | wrapped.py:21-42 | It goes to the service exactly on a cache miss. A hit returns the stored triple and leaves the cache alone, or raises KeyError for an entry lacking a key. A miss gives the service's answer, and on success sets exactly that title's entry. No other key is added, removed or changed. |
| Metadata.MovieCache.constructor | wrapped.py:88 | The cache object holds the loaded dictionary. |
| Metadata.MovieCache.GetMovieDetails | wrapped.py:21-42 | Updating the cache in place, it returns what Resolve returns and leaves the cache Resolve describes. |
| DiaryScan.FirstWord | wrapped.py:62 | `split(' ')[0]` is the longest prefix without a space. It is all of the text, or is followed by a space. |
| DiaryScan.ParseInt | wrapped.py:62 | `int` succeeds exactly on one or more decimal digits with an optional sign, and raises ValueError on any other word (so "1h" skips the title). The value is the digits' value, negated after "-". |
| DiaryScan.ParseIntShowInt | wrapped.py:62 | `int` reads back the decimal text of every integer, negative ones included. |
| DiaryScan.RuntimeMinutes | wrapped.py:62 | "N/A" is 0 minutes. |
| DiaryScan.RuntimeOfMinutesText | wrapped.py:62 | A runtime written "N min" (N followed by a space and any unit) is N minutes. |
| DiaryScan.FanOut | wrapped.py:64-65 | A title fans out into exactly one record per genre, in genre order. Each record has the title's rating, runtime and year. |
| DiaryScan.AppendFanOut | wrapped.py:64-65 | The genre loop appends exactly the fan-out of the title to the records. |
| DiaryScan.ScanRow | wrapped.py:51-70 | One pass of the loop body changes the loop variables and the cache exactly as one Step of the fold, and reports when the loop breaks. |
| DiaryScan.GetMovies2024SortedByRating | wrapped.py:44-73 | It returns the fold's records sorted by rating, highest first, with the fold's total, and leaves in the cache the fold's cache. |
| DiaryScan.ScanStopIsFinal | wrapped.py:66-70 | After the loop breaks no later row changes anything, so the records gathered before the failure are the result. |
| DiaryScan.StepGrows | wrapped.py:51-70 | A row only appends records, marks titles seen, adds cache entries without changing existing ones and counts requests. Once the loop has broken out, a row changes nothing. |
| DiaryScan.ScanGrows | wrapped.py:50-70 | The state after a prefix of the rows is contained in the final state (records form a prefix, seen set and cache are included). |
| DiaryScan.StepAddsOneTitle | wrapped.py:57-65 | A row either leaves records and total alone, or it is a new title whose fan-out is appended and whose runtime is added once. |
| DiaryScan.ScanTitlesAgree | wrapped.py:57-65 | Every record's title is in the seen set. Records of one title agree on rating, runtime and year, however many genres it has. |
| DiaryScan.ScanTotalCountsEachTitleOnce | wrapped.py:61-65 | The total runtime is the sum of the runtimes of the distinct titles among the records; fan-out never double counts. |
| DiaryScan.ScanCacheGrowth | wrapped.py:35 | Every cache entry present before the scan keeps its value. Every entry the scan adds belongs to a title the service answered, and is what it answered. |
| DiaryScan.ScanSeenIsCountedTitles | wrapped.py:53-59 | While the loop runs, the seen set is exactly the set of titles of the 2024 rows whose rating parses. |
| DiaryScan.ScanRecordsComeFromFirstEntries | wrapped.py:53-65 | Every record comes from the first counted 2024 row with its title and carries that row's rating, so later rewatches are ignored. |
| DiaryScan.FailedRequestsAreRequests | wrapped.py:26-42 | The requests that failed are among the requests made. |
| DiaryScan.WarmCacheRerun | wrapped.py:88-91 | With a service that gives every title the same answer in both runs, re-running over the same diary with the saved cache yields the same records, total, seen set and cache. It asks the service only for the titles whose request failed the first time. |
| DiaryScan.ScanIgnoresService | wrapped.py:21-26 | A scan that made no request gives the same result whatever the service answers. |
| DiaryScan.WarmCacheRerunAnyService | wrapped.py:88-91 | When every request of the first run was answered, the re-run with the saved cache makes no request and gives the first run's result, whatever the service answers the second time. |
| StableSort.SortIsStablePermutation | wrapped.py:72 | The sort is a permutation of its input, ordered by key, and keeps the elements of every key in input order (stability). |
| StableSort.SortHeadIsFirstMinimum | wrapped.py:82-83 | The head of the sorted list is the first element of the input with the smallest key. For the negated rating it is the first highest-rated element. |
| Favorites.GenreIndices | wrapped.py:76-78 | The positions of a genre's records are valid, increasing and complete. |
| Favorites.PairsAtGenreIndices | wrapped.py:76-78 | The group of a genre holds the (title, rating) of exactly that genre's records, in list order. |
| Favorites.GroupByGenre | wrapped.py:76-78 | The grouping loop has one group per genre present, holding exactly that genre's pairs in list order. |
| Favorites.FavoritesByGenre | wrapped.py:75-85 | The dictionary's keys are exactly the genres present. |
| Favorites.BestIsFirstMaximum | wrapped.py:82-83 | The head of a group sorted best first is its first highest-rated pair. |
| Favorites.FavoritesAreBestPerGenre | wrapped.py:75-85 | Every present genre maps to the (title, rating) of its first record with the highest rating, and no other genre is mapped. |
| Favorites.BestPerGenreIsUnique | wrapped.py:75-85 | That characterisation determines the dictionary. |
| Favorites.GetFavoriteMoviesByGenre | wrapped.py:75-85 | The two loops return the favourites dictionary. |
| Favorites.BestPerGenreSurvivesResort | wrapped.py:109 | Re-sorting the records by rating, either way, keeps each genre's favourite. |
| Selections.PickedBounded | wrapped.py:100-113 | Each list holds at most five records. |
| Selections.PickedShape | wrapped.py:100-113 | Each list repeats no title. It holds only records of the list it walked that pass its filter: any for the top five, year "2024" for the made-in-2024 list, a positive rating for the least five. |
| Selections.PickedRanked | wrapped.py:100-113 | A list picked from a list ranked by rating is ranked the same way. |
| Selections.PickedIsFirstFive | wrapped.py:100-113 | An eligible record whose title is not kept is left out only because five are already kept. On a ranked list, every kept record is rated at least as well as it (top lists) or at most as well (least list). |
| Selections.SelectTopFive | wrapped.py:100-106 | The loop over the best-first list fills the top five and the top five made in 2024, as the common selection fold does. |
| Selections.SelectLeastFive | wrapped.py:110-113 | The loop over the worst-first list fills the least five, as the common selection fold does. |
| WrappedReport.GenreLines | wrapped.py:128-135 | One line per specified genre. |
| WrappedReport.GenreLinesReportEachGenre | wrapped.py:128-135 | A specified genre is reported as "No movies found" exactly when no record has it; otherwise its line is the genre's first highest-rated record. |
| WrappedReport.SortRanks | wrapped.py:72 | The sort by rating, either way, ranks the list by rating. |
| WrappedReport.FavoritesAgreeAcrossReports | wrapped.py:127 | The favourites computed on the re-sorted list equal those on the diary-order records and the web handler's genre dictionary. |
| WrappedReport.CommandLineReport | wrapped.py:87-137 | The report holds the three selections of the sorted lists, the genre lines of the favourites and the total runtime of the scan, and the saved cache is the scan's cache. |
| WrappedReport.SummaryListsAreRanked | wrapped.py:93-113 | On the real sorted lists, a title left out of a full list is rated no better than every kept one (no worse, for the least list). |
| AppReport.GenresDictIsBestPerGenre | app.py:33-37 | The strict-`>` fold maps every present genre, and only those, to its first highest-rated record, keeping the first on ties. |
| AppReport.GenresDictIsFavorites | app.py:33-37 | The fold equals the command-line favourites on the same list. |
| AppReport.BuildGenresDict | app.py:33-37 | The loop computes the fold. |
| AppReport.FirstFive | app.py:43 | `[:5]` is a prefix of min(5, n) records. |
| AppReport.FirstFiveAreBest | app.py:42-44 | On the best-first list, the first five are rated at least as well as every later record. |
| AppReport.LastFive | app.py:47 | `[-5:]` is a suffix of min(5, n) records. |
| AppReport.LastFiveAreWorst | app.py:46-48 | On the best-first list, the last five are rated at most as well as every earlier record, and are best first themselves. |
| AppReport.MadeIn | app.py:51 | The filter keeps exactly the records of the given year. |
| AppReport.MadeInPositions | app.py:51 | The filter keeps them in list order: its k-th record is the record at the k-th position of the list holding that year. |
| AppReport.MadeIn2024AsWritten | app.py:51 | The list as written is the first min(5, k) of the k records whose year is the number 2024, in list order. |
| AppReport.MadeIn2024AsWrittenIsEmpty | app.py:51 | When every year is text, as the service and the cache give it, the list as written is empty. |
| AppReport.MadeIn2024AsWrittenMissesA2024Film | app.py:51 | A record with year "2024" is missing from the list as written, yet kept by the corrected one. |
| AppReport.MadeIn2024 | app.py:51 | The corrected list is the first min(5, k) of the k records whose year is the text "2024", in list order. |
| AppReport.MadeIn2024IsBestOf2024 | app.py:51 | The corrected list holds five 2024 records unless there are fewer. On the best-first list, no 2024 record left out is rated above one kept. |
| AppReport.UploadReport | app.py:26-56 | The report holds the first and last five records of the sorted list, the corrected 2024 list (see Findings), the genre dictionary and the total runtime, and the saved cache is the scan's cache. |

## Left out

- The HTTP request and the URL built for it (wrapped.py:25-26) are reduced to the `Response` value the service yields for a title. Decoding the JSON body is reduced to "a map of text fields, or not JSON". A Genre, Runtime or Year value that is not text is not modelled.
- `load_cache` and `save_cache` (wrapped.py:10-19) are file I/O. The cache is handed in already loaded, and what the methods leave in it is what is saved.
- CSV reading is not modelled; a row is a sequence of strings. `datetime.strptime` and `float` are the parameters `parseDate` and `parseRating` of `DiaryScan.Env`. Ratings are integers (tenths of a star), since they are only compared with each other and with 0.
- DiaryScan.ParseInt: it accepts an optional sign followed by ASCII digits only. Python's `int` also accepts surrounding tabs or newlines, `_` between digits and non-ASCII digits; those runtimes are rejected here (a skipped title) where Python would count them.
- DiaryScan.RuntimeMinutes: the contract states the "N/A" case. The "N min" case is stated by `RuntimeOfMinutesText`; other texts are left to `ParseInt`.
- The printing of the reports, the Flask routes, upload saving and the 400 responses (app.py:6-25) are not modelled.
- `load_config` and the cache file name are not modelled. The unpacking of seven results and the actor, director, busiest-week and busiest-day summaries (app.py:26-30, 58-74) are not modelled either: the function producing them is not part of this model. `UploadReport` uses the scan as `wrapped.py` defines it.
- The genre dictionary's iteration order in `get_favorite_movies_by_genre` and in the handler's output is not modelled. The dictionaries are maps, and the favourites do not depend on the order in which groups are visited.
- The in-place `list.sort` calls are modelled by the function `StableSort.Sort` on the sequence, not as an in-place algorithm on an array.
- Partial cache entries: `get_movie_details` reads `cache[title]['genres']` and the other keys directly. An entry lacking one raises KeyError and, like any non-ValueError, ends the scan. The model follows this code. It does not re-fetch such an entry.
- AppReport.UploadReport: its made-in-2024 field is the corrected list `MadeIn2024`, which compares the year with the text "2024". The line as written (app.py:51) gives `MadeIn2024AsWritten` instead; `MadeIn2024AsWrittenIsEmpty` shows that list is empty whenever the years are text.
- Selections.PickedShape: the made-in-2024 filter is stated as the year being the text "2024", as in wrapped.py:104. A year the service gives in another form, such as "2024–", is not in the list.

## Findings

| source | as written | input that shows it | evidently intended | confidence | as-written member | corrected member |
|---|---|---|---|---|---|---|
| app.py:51 | `m[4] == 2024` compares the year with the integer 2024, while the metadata service and the cache give the year as text | a diary whose only 2024 film has year "2024", such as `Record("Challengers", 40, "Drama", 131, YearText("2024"))`: the "Top 5 movies made in 2024" section is empty | compare with the text "2024", as wrapped.py:104 does | medium, not executed | AppReport.MadeIn2024AsWrittenIsEmpty | AppReport.MadeIn2024IsBestOf2024 |
