/** A model of the library sort used by the services: `Array.prototype.sort` with a
    comparator that subtracts two integer keys. ECMAScript requires that sort to be stable. */
module Sorting {

  ghost predicate Sorted<T(!new)>(key: T -> int, s: seq<T>) {
    forall i, j :: 0 <= i < j < |s| ==> key(s[i]) <= key(s[j])
  }

  /** Elements of `s` whose key is `k`, in the order in which they appear. */
  ghost function WithKey<T(!new)>(key: T -> int, k: int, s: seq<T>): seq<T> {
    if s == [] then []
    else (if key(s[0]) == k then [s[0]] else []) + WithKey(key, k, s[1..])
  }

  function Insert<T>(key: T -> int, x: T, s: seq<T>): seq<T> {
    if s == [] || key(x) <= key(s[0]) then [x] + s
    else [s[0]] + Insert(key, x, s[1..])
  }

  function Sort<T>(key: T -> int, s: seq<T>): seq<T> {
    if s == [] then [] else Insert(key, s[0], Sort(key, s[1..]))
  }

  lemma PrependKeepsSorted<T(!new)>(key: T -> int, x: T, s: seq<T>)
    requires Sorted(key, s)
    requires forall y :: y in s ==> key(x) <= key(y)
    ensures Sorted(key, [x] + s)
  {
    var t := [x] + s;
    forall i, j | 0 <= i < j < |t|
      ensures key(t[i]) <= key(t[j])
    {
      assert t[j] == s[j - 1];
      if i != 0 {
        assert t[i] == s[i - 1];
      }
    }
  }

  lemma {:induction false} InsertAddsOne<T(!new)>(key: T -> int, x: T, s: seq<T>)
    ensures multiset(Insert(key, x, s)) == multiset(s) + multiset{x}
  {
    if s == [] || key(x) <= key(s[0]) {
    } else {
      InsertAddsOne(key, x, s[1..]);
      assert s == [s[0]] + s[1..];
    }
  }

  lemma {:induction false} InsertKeepsSorted<T(!new)>(key: T -> int, x: T, s: seq<T>)
    requires Sorted(key, s)
    ensures Sorted(key, Insert(key, x, s))
  {
    if s == [] {
    } else if key(x) <= key(s[0]) {
      PrependKeepsSorted(key, x, s);
    } else {
      var rest := Insert(key, x, s[1..]);
      InsertKeepsSorted(key, x, s[1..]);
      forall y | y in rest
        ensures key(s[0]) <= key(y)
      {
        InsertAddsOne(key, x, s[1..]);
        assert y in multiset(rest);
        if y != x {
          assert y in s[1..];
        }
      }
      PrependKeepsSorted(key, s[0], rest);
    }
  }

  lemma {:induction false} InsertKeepsOrderOfEquals<T(!new)>(key: T -> int, k: int, x: T, s: seq<T>)
    ensures WithKey(key, k, Insert(key, x, s)) == WithKey(key, k, [x] + s)
  {
    if s == [] || key(x) <= key(s[0]) {
    } else {
      InsertKeepsOrderOfEquals(key, k, x, s[1..]);
      assert ([x] + s)[1..] == s;
      assert ([x] + s[1..])[1..] == s[1..];
      var inserted := Insert(key, x, s);
      assert inserted[1..] == Insert(key, x, s[1..]);
    }
  }

  /** What the library promises: an ordered permutation of its argument ... */
  lemma {:induction false} SortPermutes<T(!new)>(key: T -> int, s: seq<T>)
    ensures Sorted(key, Sort(key, s))
    ensures multiset(Sort(key, s)) == multiset(s)
    ensures |Sort(key, s)| == |s|
  {
    if s != [] {
      SortPermutes(key, s[1..]);
      InsertKeepsSorted(key, s[0], Sort(key, s[1..]));
      InsertAddsOne(key, s[0], Sort(key, s[1..]));
      assert s == [s[0]] + s[1..];
      assert |multiset(Sort(key, s))| == |multiset(s)|;
    }
  }

  /** ... in which elements with equal keys keep their order. */
  lemma {:induction false} SortIsStable<T(!new)>(key: T -> int, k: int, s: seq<T>)
    ensures WithKey(key, k, Sort(key, s)) == WithKey(key, k, s)
  {
    if s != [] {
      SortIsStable(key, k, s[1..]);
      InsertKeepsOrderOfEquals(key, k, s[0], Sort(key, s[1..]));
      var t := [s[0]] + Sort(key, s[1..]);
      assert t[1..] == Sort(key, s[1..]);
    }
  }

  /** Of two elements with equal keys the first comes before the second. */
  ghost predicate TiesInOrder<T(!new)>(key: T -> int, before: (T, T) -> bool, s: seq<T>) {
    forall i, j :: 0 <= i < j < |s| && key(s[i]) == key(s[j]) ==> before(s[i], s[j])
  }

  lemma PrependKeepsTies<T(!new)>(key: T -> int, before: (T, T) -> bool, x: T, s: seq<T>)
    requires TiesInOrder(key, before, s)
    requires forall y :: y in s && key(x) == key(y) ==> before(x, y)
    ensures TiesInOrder(key, before, [x] + s)
  {
    var t := [x] + s;
    forall i, j | 0 <= i < j < |t| && key(t[i]) == key(t[j]) ensures before(t[i], t[j]) {
      assert t[j] == s[j - 1] && s[j - 1] in s;
      assert i > 0 ==> t[i] == s[i - 1];
    }
  }

  lemma FirstBeforeTies<T(!new)>(key: T -> int, before: (T, T) -> bool, s: seq<T>, y: T)
    requires TiesInOrder(key, before, s) && s != [] && y in s[1..] && key(s[0]) == key(y)
    ensures before(s[0], y)
  {
    var j :| 0 <= j < |s| - 1 && s[1..][j] == y;
    assert s[j + 1] == y;
  }

  lemma {:induction false} InsertKeepsTies<T(!new)>(key: T -> int, before: (T, T) -> bool, x: T, s: seq<T>)
    requires TiesInOrder(key, before, s)
    requires forall y :: y in s && key(x) == key(y) ==> before(x, y)
    ensures TiesInOrder(key, before, Insert(key, x, s))
  {
    if s == [] || key(x) <= key(s[0]) {
      PrependKeepsTies(key, before, x, s);
    } else {
      var rest := Insert(key, x, s[1..]);
      InsertKeepsTies(key, before, x, s[1..]);
      InsertAddsOne(key, x, s[1..]);
      forall y | y in rest && key(s[0]) == key(y) ensures before(s[0], y) {
        assert y in multiset(rest);
        FirstBeforeTies(key, before, s, y);
      }
      PrependKeepsTies(key, before, s[0], rest);
    }
  }

  lemma {:induction false} SortKeepsTies<T(!new)>(key: T -> int, before: (T, T) -> bool, s: seq<T>)
    requires TiesInOrder(key, before, s)
    ensures TiesInOrder(key, before, Sort(key, s))
  {
    if s != [] {
      SortKeepsTies(key, before, s[1..]);
      SortPermutes(key, s[1..]);
      forall y | y in Sort(key, s[1..]) && key(s[0]) == key(y) ensures before(s[0], y) {
        assert y in multiset(Sort(key, s[1..]));
        FirstBeforeTies(key, before, s, y);
      }
      InsertKeepsTies(key, before, s[0], Sort(key, s[1..]));
    }
  }

  /** A list that is already in order is left alone, ties included. */
  lemma {:induction false} SortedIsFixpoint<T(!new)>(key: T -> int, s: seq<T>)
    requires Sorted(key, s)
    ensures Sort(key, s) == s
  {
    if s != [] {
      SortedIsFixpoint(key, s[1..]);
      assert s == [s[0]] + s[1..];
      if 1 < |s| {
        assert key(s[0]) <= key(s[1]);
      }
    }
  }

  function Map<T, U>(f: T -> U, s: seq<T>): (r: seq<U>)
    ensures |r| == |s|
    ensures forall i :: 0 <= i < |s| ==> r[i] == f(s[i])
  {
    seq(|s|, i requires 0 <= i < |s| => f(s[i]))
  }

  /** A list without its element `k`. */
  ghost function Without<T>(s: seq<T>, k: nat): (r: seq<T>)
    requires k < |s|
    ensures multiset(r) == multiset(s) - multiset{s[k]} && |r| == |s| - 1
  {
    assert s == s[..k] + [s[k]] + s[k + 1..];
    s[..k] + s[k + 1..]
  }
}
