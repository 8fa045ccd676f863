/** The three five-title lists of the command-line report: the best rated
    titles, the best rated titles released in 2024, and the worst rated
    titles that have a rating. Each walks a rating-ordered list of records
    (one record per genre, so a title can occur several times) and keeps
    the first record of each title while fewer than five are kept. */
module Selections {
  import opened MovieTypes

  datatype Selection = Top | Released2024 | Least

  /** The per-record filter of each list: every record for the top five;
      a year equal to the text "2024" for the films made in 2024; a
      positive rating for the least favourites (unrated entries are 0). */
  predicate Eligible(m: Record, sel: Selection)
  {
    match sel
    case Top => true
    case Released2024 => m.year == YearText("2024")
    case Least => m.rating > 0
  }

  /** What a selection loop has kept after walking s, left to right. */
  function Picked(s: seq<Record>, sel: Selection): seq<Record>
  {
    if s == [] then []
    else
      var p := Picked(s[..|s| - 1], sel);
      var m := s[|s| - 1];
      if |p| < 5 && Eligible(m, sel) && m.title !in Titles(p) then p + [m] else p
  }

  lemma {:induction false} PickedBounded(s: seq<Record>, sel: Selection)
    ensures |Picked(s, sel)| <= 5
  {
    if s != [] {
      PickedBounded(s[..|s| - 1], sel);
    }
  }

  /** Every list holds only eligible records taken from the list it
      walked, and no title twice. */
  lemma {:induction false} PickedShape(s: seq<Record>, sel: Selection)
    ensures var p := Picked(s, sel);
      && DistinctTitles(p)
      && (forall m :: m in p ==> m in s && Eligible(m, sel))
  {
    if s != [] {
      var init, m := s[..|s| - 1], s[|s| - 1];
      var p := Picked(init, sel);
      PickedShape(init, sel);
      assert init + [m] == s;
      if |p| < 5 && Eligible(m, sel) && m.title !in Titles(p) {
        forall i | 0 <= i < |p| ensures p[i].title != m.title {
          assert p[i] in p;
        }
      }
    }
  }

  /** A selection from a list ranked by rating is ranked the same way. */
  lemma {:induction false} PickedRanked(s: seq<Record>, sel: Selection, desc: bool)
    requires RankedByRating(s, desc)
    ensures RankedByRating(Picked(s, sel), desc)
  {
    if s != [] {
      var init, m := s[..|s| - 1], s[|s| - 1];
      var p := Picked(init, sel);
      assert RankedByRating(init, desc);
      PickedRanked(init, sel, desc);
      PickedShape(init, sel);
      if |p| < 5 && Eligible(m, sel) && m.title !in Titles(p) {
        forall i | 0 <= i < |p| ensures if desc then p[i].rating >= m.rating else p[i].rating <= m.rating {
          assert p[i] in init;
          var k :| 0 <= k < |init| && init[k] == p[i];
          assert s[k] == p[i];
        }
      }
    }
  }

  /** Once five records are kept, the list is final. */
  lemma {:induction false} PickedFull(s: seq<Record>, i: nat, sel: Selection)
    requires i <= |s| && |Picked(s[..i], sel)| == 5
    ensures Picked(s, sel) == Picked(s[..i], sel)
  {
    if i < |s| {
      var init := s[..|s| - 1];
      assert init[..i] == s[..i];
      PickedFull(init, i, sel);
    } else {
      assert s[..i] == s;
    }
  }

  /** Walking further only appends. */
  lemma {:induction false} PickedGrows(s: seq<Record>, i: nat, sel: Selection)
    requires i <= |s|
    ensures Picked(s[..i], sel) <= Picked(s, sel)
  {
    if i < |s| {
      var init := s[..|s| - 1];
      assert init[..i] == s[..i];
      PickedGrows(init, i, sel);
    } else {
      assert s[..i] == s;
    }
  }

  lemma TitlesOfPrefix(p: seq<Record>, q: seq<Record>)
    requires p <= q
    ensures Titles(p) <= Titles(q)
  {
    forall m | m in p ensures m in q {
      var i :| 0 <= i < |p| && p[i] == m;
      assert q[i] == m;
    }
  }

  /** A title is left out only when the list is full: every eligible
      record whose title is not kept was met after five titles were kept,
      so in a list ranked by rating every kept record is rated at least as
      well (top lists) or at most as well (least list) as any left-out
      eligible record. */
  lemma PickedIsFirstFive(s: seq<Record>, sel: Selection, desc: bool, x: Record)
    requires x in s && Eligible(x, sel) && x.title !in Titles(Picked(s, sel))
    ensures |Picked(s, sel)| == 5
    ensures RankedByRating(s, desc) ==>
              forall y :: y in Picked(s, sel) ==> if desc then y.rating >= x.rating else y.rating <= x.rating
  {
    var j :| 0 <= j < |s| && s[j] == x;
    var p := Picked(s[..j], sel);
    var q := Picked(s[..j + 1], sel);
    assert s[..j + 1][..j] == s[..j];
    PickedGrows(s, j + 1, sel);
    TitlesOfPrefix(q, Picked(s, sel));
    PickedBounded(s[..j], sel);
    if |p| < 5 && x.title !in Titles(p) {
      TitlesAppend(p, x);
    }
    TitlesOfPrefix(p, q);
    assert |p| == 5;
    PickedFull(s, j, sel);
    if RankedByRating(s, desc) {
      PickedShape(s[..j], sel);
      assert RankedByRating(s[..j], desc);
      forall y | y in p ensures if desc then y.rating >= x.rating else y.rating <= x.rating {
        var i :| 0 <= i < j && s[..j][i] == y;
        assert s[i] == y;
      }
    }
  }

  /** The loop over the list sorted best first (wrapped.py lines 100-106):
      one pass fills the top five and the top five made in 2024, each with
      its own seen set. */
  method SelectTopFive(sorted: seq<Record>) returns (top5: seq<Record>, made2024: seq<Record>)
    ensures top5 == Picked(sorted, Top)
    ensures made2024 == Picked(sorted, Released2024)
  {
    top5, made2024 := [], [];
    var seenTop: set<string> := {};
    var seenMade: set<string> := {};
    for i := 0 to |sorted|
      invariant top5 == Picked(sorted[..i], Top) && seenTop == Titles(top5)
      invariant made2024 == Picked(sorted[..i], Released2024) && seenMade == Titles(made2024)
    {
      var m := sorted[i];
      assert sorted[..i + 1][..i] == sorted[..i];
      if |top5| < 5 && m.title !in seenTop {
        TitlesAppend(top5, m);
        top5 := top5 + [m];
        seenTop := seenTop + {m.title};
      }
      if |made2024| < 5 && m.year == YearText("2024") && m.title !in seenMade {
        TitlesAppend(made2024, m);
        made2024 := made2024 + [m];
        seenMade := seenMade + {m.title};
      }
    }
    assert sorted[..|sorted|] == sorted;
  }

  /** The loop over the list re-sorted worst first (wrapped.py lines
      110-113). */
  method SelectLeastFive(ascending: seq<Record>) returns (least5: seq<Record>)
    ensures least5 == Picked(ascending, Least)
  {
    least5 := [];
    var seen: set<string> := {};
    for i := 0 to |ascending|
      invariant least5 == Picked(ascending[..i], Least) && seen == Titles(least5)
    {
      var m := ascending[i];
      assert ascending[..i + 1][..i] == ascending[..i];
      if |least5| < 5 && m.rating > 0 && m.title !in seen {
        TitlesAppend(least5, m);
        least5 := least5 + [m];
        seen := seen + {m.title};
      }
    }
    assert ascending[..|ascending|] == ascending;
  }
}
