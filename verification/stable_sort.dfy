/** A stable sort by a real-valued key, highest key first. This is what
    Python's `sorted(xs, key=lambda x: -score(x))` computes: `sorted` is
    stable, so elements with equal keys keep their input order. */
module StableSort {

  /** Keys never increase from left to right. */
  ghost predicate SortedDesc<T>(s: seq<T>, key: T -> real) {
    forall i, j :: 0 <= i < j < |s| ==> key(s[i]) >= key(s[j])
  }

  /** The elements of `s` whose key is exactly `v`, in their order in `s`. */
  function Filter<T>(s: seq<T>, key: T -> real, v: real): (r: seq<T>)
    ensures |r| <= |s|
    ensures forall k :: 0 <= k < |r| ==> key(r[k]) == v
  {
    if |s| == 0 then []
    else (if key(s[0]) == v then [s[0]] else []) + Filter(s[1..], key, v)
  }

  /** Applies `f` to every element. */
  function Map<T, U>(s: seq<T>, f: T -> U): (r: seq<U>)
    ensures |r| == |s|
    ensures forall k :: 0 <= k < |s| ==> r[k] == f(s[k])
  {
    seq(|s|, k requires 0 <= k < |s| => f(s[k]))
  }

  /** Puts `x` in front of the first element whose key is not larger than
      its own, so `x` ends up before every element with an equal key. */
  function Insert<T>(x: T, s: seq<T>, key: T -> real): (r: seq<T>)
    ensures multiset(r) == multiset(s) + multiset{x}
    ensures |r| == |s| + 1
  {
    if |s| == 0 then [x]
    else if key(x) >= key(s[0]) then [x] + s
    else
      assert s == [s[0]] + s[1..];
      [s[0]] + Insert(x, s[1..], key)
  }

  /** Insertion sort, highest key first; the head of the input is inserted
      last, so among equal keys it lands in front of the later ones. */
  function Sort<T>(s: seq<T>, key: T -> real): (r: seq<T>)
    ensures multiset(r) == multiset(s)
    ensures |r| == |s|
  {
    if |s| == 0 then []
    else
      assert s == [s[0]] + s[1..];
      Insert(s[0], Sort(s[1..], key), key)
  }

  lemma FilterCons<T>(x: T, s: seq<T>, key: T -> real, v: real)
    ensures Filter([x] + s, key, v) == (if key(x) == v then [x] else []) + Filter(s, key, v)
  {
    assert ([x] + s)[0] == x;
    assert ([x] + s)[1..] == s;
  }

  lemma MapCons<T, U>(x: T, s: seq<T>, f: T -> U)
    ensures Map([x] + s, f) == [f(x)] + Map(s, f)
  {
    var l := Map([x] + s, f);
    var r := [f(x)] + Map(s, f);
    assert |l| == |r|;
    forall k | 0 <= k < |l|
      ensures l[k] == r[k]
    {
      if k > 0 {
        assert ([x] + s)[k] == s[k - 1];
      }
    }
  }

  /** Every element of an insertion is the inserted element or one of `s`. */
  lemma InsertMembers<T>(x: T, s: seq<T>, key: T -> real, y: T)
    requires y in Insert(x, s, key)
    ensures y == x || y in s
  {
    assert y in multiset(Insert(x, s, key));
  }

  /** Inserting keeps a key-descending sequence key-descending. */
  lemma {:induction false} InsertSorted<T>(x: T, s: seq<T>, key: T -> real)
    requires SortedDesc(s, key)
    ensures SortedDesc(Insert(x, s, key), key)
  {
    if |s| == 0 || key(x) >= key(s[0]) {
    } else {
      var tail := Insert(x, s[1..], key);
      InsertSorted(x, s[1..], key);
      forall k | 0 <= k < |tail|
        ensures key(tail[k]) <= key(s[0])
      {
        InsertMembers(x, s[1..], key, tail[k]);
        if tail[k] != x {
          var m :| 0 <= m < |s[1..]| && s[1..][m] == tail[k];
          assert s[m + 1] == tail[k];
        }
      }
      var r := [s[0]] + tail;
      assert Insert(x, s, key) == r;
      forall i, j | 0 <= i < j < |r|
        ensures key(r[i]) >= key(r[j])
      {
        if i == 0 {
          assert r[j] == tail[j - 1];
        } else {
          assert r[i] == tail[i - 1] && r[j] == tail[j - 1];
        }
      }
    }
  }

  /** Inserting `x` adds it in front of the elements with its key and leaves
      every other key's elements as they were. */
  lemma {:induction false} InsertFilter<T>(x: T, s: seq<T>, key: T -> real, v: real)
    ensures Filter(Insert(x, s, key), key, v) == (if key(x) == v then [x] else []) + Filter(s, key, v)
  {
    if |s| == 0 || key(x) >= key(s[0]) {
      assert Insert(x, s, key) == [x] + s;
      FilterCons(x, s, key, v);
    } else {
      var tail := Insert(x, s[1..], key);
      assert Insert(x, s, key) == [s[0]] + tail;
      assert [s[0]] + s[1..] == s;
      InsertFilter(x, s[1..], key, v);
      FilterCons(s[0], tail, key, v);
      FilterCons(s[0], s[1..], key, v);
      SwapEmpty(if key(s[0]) == v then [s[0]] else [], if key(x) == v then [x] else [], Filter(s[1..], key, v));
    }
  }

  /** Two sequences of which one is empty can be swapped. */
  lemma SwapEmpty<T>(a: seq<T>, b: seq<T>, c: seq<T>)
    requires a == [] || b == []
    ensures a + (b + c) == b + (a + c)
  {
    if a == [] {
      assert a + (b + c) == b + c == b + (a + c);
    } else {
      assert a + (b + c) == a + c == b + (a + c);
    }
  }

  /** Mapping an insertion gives a permutation of the mapped input plus the
      mapped new element. */
  lemma {:induction false} InsertMapPerm<T, U>(x: T, s: seq<T>, key: T -> real, f: T -> U)
    ensures multiset(Map(Insert(x, s, key), f)) == multiset(Map(s, f)) + multiset{f(x)}
  {
    if |s| == 0 || key(x) >= key(s[0]) {
      assert Insert(x, s, key) == [x] + s;
      MapConsPerm(x, s, f);
    } else {
      var tail := Insert(x, s[1..], key);
      InsertMapPerm(x, s[1..], key, f);
      assert Insert(x, s, key) == [s[0]] + tail;
      MapConsPerm(s[0], tail, f);
      MapHeadPerm(s, f);
    }
  }

  /** Mapping a sequence with an element in front adds that element's
      image. */
  lemma MapConsPerm<T, U>(x: T, s: seq<T>, f: T -> U)
    ensures multiset(Map([x] + s, f)) == multiset(Map(s, f)) + multiset{f(x)}
  {
    MapCons(x, s, f);
  }

  /** The sorted sequence is key-descending. */
  lemma {:induction false} SortSorted<T>(s: seq<T>, key: T -> real)
    ensures SortedDesc(Sort(s, key), key)
  {
    if |s| > 0 {
      SortSorted(s[1..], key);
      InsertSorted(s[0], Sort(s[1..], key), key);
    }
  }

  /** Stability: for every key, the elements with that key appear in the
      output in the same order as in the input. */
  lemma {:induction false} SortStable<T>(s: seq<T>, key: T -> real, v: real)
    ensures Filter(Sort(s, key), key, v) == Filter(s, key, v)
  {
    if |s| > 0 {
      SortStable(s[1..], key, v);
      InsertFilter(s[0], Sort(s[1..], key), key, v);
    }
  }

  /** Any projection of the sorted sequence is a permutation of the same
      projection of the input. */
  lemma {:induction false} SortMapPerm<T, U>(s: seq<T>, key: T -> real, f: T -> U)
    ensures multiset(Map(Sort(s, key), f)) == multiset(Map(s, f))
  {
    if |s| > 0 {
      var rest := Sort(s[1..], key);
      SortMapPerm(s[1..], key, f);
      InsertMapPerm(s[0], rest, key, f);
      MapHeadPerm(s, f);
    }
  }

  /** The mapped head and the mapped tail make up the mapped sequence. */
  lemma MapHeadPerm<T, U>(s: seq<T>, f: T -> U)
    requires |s| > 0
    ensures multiset(Map(s, f)) == multiset(Map(s[1..], f)) + multiset{f(s[0])}
  {
    assert [s[0]] + s[1..] == s;
    MapConsPerm(s[0], s[1..], f);
  }
}
