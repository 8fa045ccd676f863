/** Python's `list.sort(key=...)`: a stable sort by an integer key.
    `sort(key=k, reverse=True)` keeps equal keys in their original order
    too, so it is the same as a stable ascending sort by the negated key. */
module StableSort {

  /** Puts x in front of the first element whose key is not smaller than
      x's; the elements it passes all have smaller keys. */
  function Insert<T>(x: T, s: seq<T>, key: T -> int): (r: seq<T>)
    ensures |r| == |s| + 1
  {
    if s == [] then [x]
    else if key(x) <= key(s[0]) then [x] + s
    else [s[0]] + Insert(x, s[1..], key)
  }

  /** The sorted list, ascending by key, equal keys in input order. */
  function Sort<T>(s: seq<T>, key: T -> int): (r: seq<T>)
    ensures |r| == |s|
  {
    if s == [] then [] else Insert(s[0], Sort(s[1..], key), key)
  }

  predicate SortedBy<T>(s: seq<T>, key: T -> int)
  {
    forall i, j :: 0 <= i < j < |s| ==> key(s[i]) <= key(s[j])
  }

  /** The elements whose key is v, in list order. */
  function WithKey<T>(s: seq<T>, key: T -> int, v: int): seq<T>
  {
    if s == [] then []
    else (if key(s[0]) == v then [s[0]] else []) + WithKey(s[1..], key, v)
  }

  lemma {:induction false} InsertPermutes<T>(x: T, s: seq<T>, key: T -> int)
    ensures multiset(Insert(x, s, key)) == multiset(s) + multiset{x}
  {
    if s != [] && key(x) > key(s[0]) {
      InsertPermutes(x, s[1..], key);
      assert s == [s[0]] + s[1..];
    }
  }

  lemma {:induction false} InsertSorted<T>(x: T, s: seq<T>, key: T -> int)
    requires SortedBy(s, key)
    ensures SortedBy(Insert(x, s, key), key)
  {
    if s == [] {
    } else if key(x) <= key(s[0]) {
      var r := [x] + s;
      forall i, j | 0 <= i < j < |r| ensures key(r[i]) <= key(r[j]) {
        assert r[j] == s[j - 1];
        if i > 0 {
          assert r[i] == s[i - 1];
        }
      }
    } else {
      var t := s[1..];
      forall i, j | 0 <= i < j < |t| ensures key(t[i]) <= key(t[j]) {
        assert t[i] == s[i + 1] && t[j] == s[j + 1];
      }
      forall i | 0 <= i < |t| ensures key(s[0]) <= key(t[i]) {
        assert t[i] == s[i + 1];
      }
      InsertSorted(x, t, key);
      InsertBounded(x, t, key, key(s[0]));
      var r := Insert(x, t, key);
      var u := [s[0]] + r;
      forall i, j | 0 <= i < j < |u| ensures key(u[i]) <= key(u[j]) {
        assert u[j] == r[j - 1];
        if i > 0 {
          assert u[i] == r[i - 1];
        }
      }
    }
  }

  /** Inserting keeps a lower bound that x and every element of s meet. */
  lemma {:induction false} InsertBounded<T>(x: T, s: seq<T>, key: T -> int, b: int)
    requires b <= key(x)
    requires forall i :: 0 <= i < |s| ==> b <= key(s[i])
    ensures forall i :: 0 <= i < |Insert(x, s, key)| ==> b <= key(Insert(x, s, key)[i])
  {
    if s != [] && key(x) > key(s[0]) {
      var t := s[1..];
      forall i | 0 <= i < |t| ensures b <= key(t[i]) {
        assert t[i] == s[i + 1];
      }
      InsertBounded(x, t, key, b);
      var r := Insert(x, t, key);
      var u := [s[0]] + r;
      forall i | 0 <= i < |u| ensures b <= key(u[i]) {
        if i > 0 {
          assert u[i] == r[i - 1];
        }
      }
    }
  }

  /** Filtering a list with a head is filtering the head, then the rest. */
  lemma {:induction false} WithKeyCons<T>(a: T, s: seq<T>, key: T -> int, v: int)
    ensures WithKey([a] + s, key, v) == (if key(a) == v then [a] else []) + WithKey(s, key, v)
  {
    var r := [a] + s;
    assert r[0] == a && r[1..] == s;
  }

  lemma {:induction false} InsertStable<T>(x: T, s: seq<T>, key: T -> int, v: int)
    ensures WithKey(Insert(x, s, key), key, v) == (if key(x) == v then [x] else []) + WithKey(s, key, v)
  {
    if s == [] {
    } else if key(x) <= key(s[0]) {
      WithKeyCons(x, s, key, v);
    } else {
      var rest := Insert(x, s[1..], key);
      InsertStable(x, s[1..], key, v);
      WithKeyCons(s[0], rest, key, v);
      WithKeyCons(s[0], s[1..], key, v);
      assert [s[0]] + s[1..] == s;
      // every element x passes has a smaller key than x
      assert key(x) == v ==> key(s[0]) != v;
    }
  }

  /** The sort returns a permutation of its input, in ascending key order,
      and elements with equal keys keep their relative order. These three
      facts pin the result down completely. */
  lemma {:induction false} SortIsStablePermutation<T>(s: seq<T>, key: T -> int)
    ensures multiset(Sort(s, key)) == multiset(s)
    ensures SortedBy(Sort(s, key), key)
    ensures forall v :: WithKey(Sort(s, key), key, v) == WithKey(s, key, v)
  {
    SortPermutes(s, key);
    SortSorted(s, key);
    forall v ensures WithKey(Sort(s, key), key, v) == WithKey(s, key, v) {
      SortStable(s, key, v);
    }
  }

  lemma {:induction false} SortPermutes<T>(s: seq<T>, key: T -> int)
    ensures multiset(Sort(s, key)) == multiset(s)
  {
    if s != [] {
      SortPermutes(s[1..], key);
      InsertPermutes(s[0], Sort(s[1..], key), key);
      assert s == [s[0]] + s[1..];
    }
  }

  lemma {:induction false} SortSorted<T>(s: seq<T>, key: T -> int)
    ensures SortedBy(Sort(s, key), key)
  {
    if s != [] {
      SortSorted(s[1..], key);
      InsertSorted(s[0], Sort(s[1..], key), key);
    }
  }

  lemma {:induction false} SortStable<T>(s: seq<T>, key: T -> int, v: int)
    ensures WithKey(Sort(s, key), key, v) == WithKey(s, key, v)
  {
    if s != [] {
      SortStable(s[1..], key, v);
      InsertStable(s[0], Sort(s[1..], key), key, v);
      WithKeyCons(s[0], s[1..], key, v);
      assert [s[0]] + s[1..] == s;
    }
  }

  /** The first element with key v, and its position. */
  lemma {:induction false} WithKeyFirst<T>(s: seq<T>, key: T -> int, v: int) returns (k: int)
    requires WithKey(s, key, v) != []
    ensures 0 <= k < |s| && s[k] == WithKey(s, key, v)[0] && key(s[k]) == v
    ensures forall j :: 0 <= j < k ==> key(s[j]) != v
  {
    WithKeyCons(s[0], s[1..], key, v);
    assert [s[0]] + s[1..] == s;
    if key(s[0]) == v {
      k := 0;
    } else {
      var k' := WithKeyFirst(s[1..], key, v);
      k := k' + 1;
      forall j | 0 <= j < k ensures key(s[j]) != v {
        if j > 0 { assert s[j] == s[1..][j - 1]; }
      }
    }
  }

  /** The head of the sorted list is the FIRST element of the input among
      those with the smallest key; k is its position in the input. */
  lemma {:induction false} SortHeadIsFirstMinimum<T>(s: seq<T>, key: T -> int) returns (k: int)
    requires s != []
    ensures 0 <= k < |s| && Sort(s, key)[0] == s[k]
    ensures forall j :: 0 <= j < |s| ==> key(s[k]) <= key(s[j])
    ensures forall j :: 0 <= j < k ==> key(s[j]) > key(s[k])
  {
    var r := Sort(s, key);
    SortIsStablePermutation(s, key);
    var v := key(r[0]);
    forall j | 0 <= j < |s| ensures v <= key(s[j]) {
      assert s[j] in multiset(r);
      var i :| 0 <= i < |r| && r[i] == s[j];
      if i > 0 { assert key(r[0]) <= key(r[i]); }
    }
    WithKeyCons(r[0], r[1..], key, v);
    assert [r[0]] + r[1..] == r;
    k := WithKeyFirst(s, key, v);
  }
}
