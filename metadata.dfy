/** get_movie_details: a cache-first lookup of a movie's genres, runtime
    and year. On a miss it asks the metadata web service once; the
    service's answer (or the error raised while asking) is an oracle
    `service` from titles to responses. */
module Metadata {
  import opened MovieTypes

  /** The three fields the diary scan reads. */
  datatype Details = Details(genres: seq<string>, runtime: string, year: Year)

  /** What asking the service for a title gives: an HTTP status with the
      body, when the body is a JSON object, as its text fields; or an
      exception raised by the request itself, which is a ValueError for a
      malformed URL and another exception for a connection failure. */
  datatype Response =
    | Response(status: int, body: Option<map<string, string>>)
    | RequestRaised(valueError: bool)

  /** Why a lookup raised: the four raises of get_movie_details, a cached
      dictionary that lacks one of the keys "genres", "runtime", "year"
      (KeyError), a body that is not JSON (a ValueError from decoding),
      and an exception from the request itself. */
  datatype Failure =
    | RequestLimitReached
    | DetailsNotFound
    | Unauthorized
    | HttpStatus(code: int)
    | MissingCacheKey
    | NotJson
    | RequestFailed(valueError: bool)

  /** The failures the scan's `except ValueError: continue` catches; every
      other failure breaks out of the scan. */
  predicate IsValueError(f: Failure)
  {
    f == NotJson || (f.RequestFailed? && f.valueError)
  }

  datatype Outcome = Ok(details: Details) | Err(failure: Failure)

  // ---------------------------------------------------------------------
  // `data['Genre'].split(', ')`

  /** Whether ", " occurs in s. */
  predicate HasSeparator(s: string)
  {
    exists i :: 0 <= i < |s| - 1 && s[i] == ',' && s[i + 1] == ' '
  }

  /** The parts glued back together with ", " between them. */
  function Join(parts: seq<string>): string
    requires |parts| >= 1
  {
    if |parts| == 1 then parts[0] else parts[0] + ", " + Join(parts[1..])
  }

  /** Python's `s.split(', ')`: the text between the occurrences of ", ",
      found left to right. The empty text gives one empty part. */
  function SplitGenres(s: string): (parts: seq<string>)
    ensures |parts| >= 1 && parts[0] <= s
    ensures Join(parts) == s
  {
    if |s| < 2 then
      [s]
    else if s[0] == ',' && s[1] == ' ' then
      var rest := SplitGenres(s[2..]);
      assert s == ", " + s[2..];
      JoinEmptyHead(rest);
      [""] + rest
    else
      var rest := SplitGenres(s[1..]);
      JoinPrepend(s[0], rest);
      assert s == [s[0]] + s[1..];
      [[s[0]] + rest[0]] + rest[1..]
  }

  /** No part of a split contains the separator. */
  lemma {:induction false} SplitPartsHaveNoSeparator(s: string)
    ensures forall i :: 0 <= i < |SplitGenres(s)| ==> !HasSeparator(SplitGenres(s)[i])
  {
    var parts := SplitGenres(s);
    if |s| >= 2 {
      if s[0] == ',' && s[1] == ' ' {
        SplitPartsHaveNoSeparator(s[2..]);
        var rest := SplitGenres(s[2..]);
        assert parts == [""] + rest;
        forall i | 0 < i < |parts| ensures !HasSeparator(parts[i]) {
          assert parts[i] == rest[i - 1];
        }
      } else {
        SplitPartsHaveNoSeparator(s[1..]);
        var rest := SplitGenres(s[1..]);
        PrependKeepsNoSeparator(s[0], rest[0], s[1]);
        SplitOfOrdinaryHead(s);
        forall i | 0 < i < |parts| ensures !HasSeparator(parts[i]) {
          assert parts[i] == rest[i];
        }
      }
    }
  }

  /** Putting c in front of x creates no separator unless c is ',' and x
      starts with ' '. */
  lemma {:induction false} PrependKeepsNoSeparator(c: char, x: string, next: char)
    requires !HasSeparator(x) && !(c == ',' && next == ' ')
    requires x != [] ==> x[0] == next
    ensures !HasSeparator([c] + x)
  {
    var y := [c] + x;
    forall i | 0 <= i < |y| - 1 ensures !(y[i] == ',' && y[i + 1] == ' ') {
      if i > 0 {
        assert y[i] == x[i - 1] && y[i + 1] == x[i];
      }
    }
  }

  lemma {:induction false} JoinPrepend(c: char, parts: seq<string>)
    requires |parts| >= 1
    ensures Join([[c] + parts[0]] + parts[1..]) == [c] + Join(parts)
  {
    var q := [[c] + parts[0]] + parts[1..];
    if |parts| > 1 {
      assert q[1..] == parts[1..];
      JoinTail(q);
      JoinTail(parts);
    }
  }

  lemma {:induction false} JoinEmptyHead(parts: seq<string>)
    requires |parts| >= 1
    ensures Join([""] + parts) == ", " + Join(parts)
  {
    var q := [""] + parts;
    assert q[1..] == parts;
    JoinTail(q);
  }

  lemma {:induction false} JoinTail(parts: seq<string>)
    requires |parts| >= 2
    ensures Join(parts) == parts[0] + ", " + Join(parts[1..])
  {
  }

  lemma {:induction false} SplitNoSeparator(x: string)
    requires !HasSeparator(x)
    ensures SplitGenres(x) == [x]
  {
    if |x| >= 2 {
      assert !(x[0] == ',' && x[1] == ' ');
      NoSeparatorInTail(x);
      SplitNoSeparator(x[1..]);
      assert x == [x[0]] + x[1..];
    }
  }

  lemma {:induction false} NoSeparatorInTail(x: string)
    requires x != [] && !HasSeparator(x)
    ensures !HasSeparator(x[1..])
  {
    var t := x[1..];
    forall i | 0 <= i < |t| - 1 ensures !(t[i] == ',' && t[i + 1] == ' ') {
      assert t[i] == x[i + 1] && t[i + 1] == x[i + 2];
    }
  }

  lemma {:induction false} SplitAtFirstSeparator(x: string, y: string)
    requires !HasSeparator(x)
    ensures SplitGenres(x + ", " + y) == [x] + SplitGenres(y)
  {
    var s := x + ", " + y;
    if x == [] {
      assert s[2..] == y;
    } else {
      NoSeparatorInTail(x);
      SplitAtFirstSeparator(x[1..], y);
      NoSeparatorAtHead(x, y);
      SplitOfOrdinaryHead(s);
      assert [x[0]] + x[1..] == x;
    }
  }

  /** The text x + ", " + y does not start with a separator when x is
      non-empty and free of separators. */
  lemma {:induction false} NoSeparatorAtHead(x: string, y: string)
    requires x != [] && !HasSeparator(x)
    ensures var s := x + ", " + y;
      && |s| >= 2 && !(s[0] == ',' && s[1] == ' ')
      && s[0] == x[0] && s[1..] == x[1..] + ", " + y
  {
    var s := x + ", " + y;
    if |x| >= 2 {
      assert s[0] == x[0] && s[1] == x[1];
      assert !(x[0] == ',' && x[1] == ' ');
    } else {
      assert s[1] == ',';
    }
    assert s[1..] == x[1..] + ", " + y;
  }

  /** A text not starting with ", " splits into its first character glued
      to the first part of the rest, then the rest's other parts. */
  lemma {:induction false} SplitOfOrdinaryHead(s: string)
    requires |s| >= 2 && !(s[0] == ',' && s[1] == ' ')
    ensures SplitGenres(s) == [[s[0]] + SplitGenres(s[1..])[0]] + SplitGenres(s[1..])[1..]
  {
  }

  /** Splitting undoes joining, for parts that do not contain ", "; with
      the contract of SplitGenres, the two are inverse. */
  lemma {:induction false} SplitJoin(parts: seq<string>)
    requires |parts| >= 1 && forall i :: 0 <= i < |parts| ==> !HasSeparator(parts[i])
    ensures SplitGenres(Join(parts)) == parts
  {
    if |parts| == 1 {
      SplitNoSeparator(parts[0]);
    } else {
      SplitJoin(parts[1..]);
      SplitAtFirstSeparator(parts[0], Join(parts[1..]));
    }
  }

  /** An empty "Genre" text is one empty genre, which the scan's
      `if genres` treats as present. */
  lemma EmptyGenreTextIsOneGenre()
    ensures SplitGenres("") == [""]
  {
  }

  // ---------------------------------------------------------------------
  // The response

  predicate LimitReached(data: map<string, string>)
  {
    "Error" in data && data["Error"] == "Request limit reached!"
  }

  predicate HasDetails(data: map<string, string>)
  {
    "Genre" in data && "Runtime" in data && "Year" in data
  }

  /** What get_movie_details makes of a response on a cache miss. */
  function Answer(resp: Response): (o: Outcome)
    ensures o.Ok? <==> resp.Response? && resp.status == 200 && resp.body.Some?
                       && !LimitReached(resp.body.value) && HasDetails(resp.body.value)
    ensures o.Ok? ==> var data := resp.body.value;
              && o.details.genres == SplitGenres(data["Genre"])
              && |o.details.genres| >= 1
              && Join(o.details.genres) == data["Genre"]
              && o.details.runtime == data["Runtime"]
              && o.details.year == YearText(data["Year"])
    ensures resp.Response? && resp.status == 200 && resp.body.Some? && LimitReached(resp.body.value) ==>
              o == Err(RequestLimitReached)
    ensures resp.Response? && resp.status == 200 && resp.body.Some? ==>
              var data := resp.body.value;
              !LimitReached(data) && !HasDetails(data) ==> o == Err(DetailsNotFound)
    ensures resp.Response? && resp.status == 200 && resp.body.None? ==> o == Err(NotJson)
    ensures resp.RequestRaised? ==> o == Err(RequestFailed(resp.valueError))
    ensures resp.Response? && resp.status == 401 ==> o == Err(Unauthorized)
    ensures resp.Response? && resp.status != 200 && resp.status != 401 ==> o == Err(HttpStatus(resp.status))
  {
    match resp
    case RequestRaised(v) => Err(RequestFailed(v))
    case Response(status, body) =>
      if status == 200 then
        match body
        case None => Err(NotJson)
        case Some(data) =>
          if LimitReached(data) then Err(RequestLimitReached)
          else if HasDetails(data) then Ok(Details(SplitGenres(data["Genre"]), data["Runtime"], YearText(data["Year"])))
          else Err(DetailsNotFound)
      else if status == 401 then Err(Unauthorized)
      else Err(HttpStatus(status))
  }

  // ---------------------------------------------------------------------
  // The cache

  /** A cache value as loaded from the JSON cache file. */
  datatype CacheEntry = Entry(genres: seq<string>, runtime: string, year: Year) | Incomplete

  function EntryOf(d: Details): CacheEntry
  {
    Entry(d.genres, d.runtime, d.year)
  }

  /** What one call of get_movie_details returns, the cache after it, and
      whether it went to the web service. */
  datatype Resolution = Resolution(outcome: Outcome, cache: map<string, CacheEntry>, fetched: bool)

  /** The cache-first lookup as a function of the cache before the call.
      A hit answers from the cache and leaves it alone; a miss asks the
      service once and, on success, adds exactly that title's entry.
      No other key is ever added, removed or changed. */
  function Resolve(cache: map<string, CacheEntry>, title: string, service: string -> Response): (res: Resolution)
    ensures res.fetched <==> title !in cache
    ensures title in cache && cache[title].Entry? ==>
              res.outcome == Ok(Details(cache[title].genres, cache[title].runtime, cache[title].year))
    ensures title in cache && cache[title].Incomplete? ==> res.outcome == Err(MissingCacheKey)
    ensures title in cache ==> res.cache == cache
    ensures title !in cache ==> res.outcome == Answer(service(title))
    ensures title !in cache && res.outcome.Ok? ==> res.cache == cache[title := EntryOf(res.outcome.details)]
    ensures res.outcome.Err? ==> res.cache == cache
    ensures forall t :: t != title ==> (t in res.cache <==> t in cache)
    ensures forall t :: t in cache ==> t in res.cache && res.cache[t] == cache[t]
  {
    if title in cache then
      match cache[title]
      case Entry(g, r, y) => Resolution(Ok(Details(g, r, y)), cache, false)
      case Incomplete => Resolution(Err(MissingCacheKey), cache, false)
    else
      match Answer(service(title))
      case Ok(d) => Resolution(Ok(d), cache[title := EntryOf(d)], true)
      case Err(f) => Resolution(Err(f), cache, true)
  }

  /** The caller's cache dictionary, which get_movie_details fills in. */
  class MovieCache {
    var entries: map<string, CacheEntry>

    constructor (loaded: map<string, CacheEntry>)
      ensures entries == loaded
    {
      entries := loaded;
    }

    method GetMovieDetails(title: string, service: string -> Response) returns (r: Outcome)
      modifies this
      ensures Resolve(old(entries), title, service) == Resolution(r, entries, title !in old(entries))
    {
      if title in entries {
        var e := entries[title];
        if e.Entry? {
          r := Ok(Details(e.genres, e.runtime, e.year));
        } else {
          r := Err(MissingCacheKey);
        }
        return;
      }
      var response := service(title);
      if response.RequestRaised? {
        r := Err(RequestFailed(response.valueError));
        return;
      }
      if response.status == 200 {
        if response.body.None? {
          r := Err(NotJson);
          return;
        }
        var data := response.body.value;
        if "Error" in data && data["Error"] == "Request limit reached!" {
          r := Err(RequestLimitReached);
        } else if "Genre" in data && "Runtime" in data && "Year" in data {
          var genres := SplitGenres(data["Genre"]);
          var runtime := data["Runtime"];
          var year := YearText(data["Year"]);
          entries := entries[title := Entry(genres, runtime, year)];
          r := Ok(Details(genres, runtime, year));
        } else {
          r := Err(DetailsNotFound);
        }
      } else if response.status == 401 {
        r := Err(Unauthorized);
      } else {
        r := Err(HttpStatus(response.status));
      }
    }
  }
}
