/**
 * Python's `sorted(xs, key=...)` over string keys: a stable sort. The result
 * is ordered by key, is a permutation of the input, and keeps the input order
 * among elements whose keys are equal.
 */
module Sorting {

  import opened Text

  ghost predicate SortedBy<T>(s: seq<T>, key: T -> string)
  {
    forall i, j :: 0 <= i < j < |s| ==> LexLe(key(s[i]), key(s[j]))
  }

  /** The elements of `s` whose key is `k`, in the order of `s`. */
  function KeyClass<T>(s: seq<T>, key: T -> string, k: string): seq<T>
  {
    if s == [] then [] else (if key(s[0]) == k then [s[0]] else []) + KeyClass(s[1..], key, k)
  }

  /** Insert `x` in front of the first element whose key is not below its own. */
  function Insert<T>(x: T, s: seq<T>, key: T -> string): (r: seq<T>)
    ensures multiset(r) == multiset(s) + multiset{x}
  {
    if s == [] then [x]
    else if LexLe(key(x), key(s[0])) then [x] + s
    else assert s == [s[0]] + s[1..]; [s[0]] + Insert(x, s[1..], key)
  }

  function SortBy<T>(s: seq<T>, key: T -> string): (r: seq<T>)
    ensures multiset(r) == multiset(s)
  {
    if s == [] then [] else assert s == [s[0]] + s[1..]; Insert(s[0], SortBy(s[1..], key), key)
  }

  lemma TailSorted<T>(s: seq<T>, key: T -> string)
    requires s != [] && SortedBy(s, key)
    ensures SortedBy(s[1..], key)
  {
    forall i, j | 0 <= i < j < |s| - 1
      ensures LexLe(key(s[1..][i]), key(s[1..][j]))
    {
      assert s[1..][i] == s[i + 1] && s[1..][j] == s[j + 1];
    }
  }

  lemma SortedCons<T>(y: T, t: seq<T>, key: T -> string)
    requires SortedBy(t, key)
    requires forall j :: 0 <= j < |t| ==> LexLe(key(y), key(t[j]))
    ensures SortedBy([y] + t, key)
  {
    var r := [y] + t;
    forall i, j | 0 <= i < j < |r|
      ensures LexLe(key(r[i]), key(r[j]))
    {
      assert r[j] == t[j - 1];
      if i > 0 {
        assert r[i] == t[i - 1];
      }
    }
  }

  lemma {:induction false} InsertSorted<T>(x: T, s: seq<T>, key: T -> string)
    requires SortedBy(s, key)
    ensures SortedBy(Insert(x, s, key), key)
  {
    if s == [] {
    } else if LexLe(key(x), key(s[0])) {
      forall j | 0 <= j < |s|
        ensures LexLe(key(x), key(s[j]))
      {
        if j > 0 {
          LexLeTrans(key(x), key(s[0]), key(s[j]));
        }
      }
      SortedCons(x, s, key);
    } else {
      TailSorted(s, key);
      var t := Insert(x, s[1..], key);
      InsertSorted(x, s[1..], key);
      LexLeTotal(key(x), key(s[0]));
      forall j | 0 <= j < |t|
        ensures LexLe(key(s[0]), key(t[j]))
      {
        assert t[j] in multiset(t);
        if t[j] != x {
          assert t[j] in multiset(s[1..]);
          var m :| 0 <= m < |s| - 1 && s[1..][m] == t[j];
          assert s[m + 1] == t[j];
        }
      }
      SortedCons(s[0], t, key);
    }
  }

  lemma {:induction false} KeyClassCons<T>(x: T, s: seq<T>, key: T -> string, k: string)
    ensures KeyClass([x] + s, key, k) == (if key(x) == k then [x] else []) + KeyClass(s, key, k)
  {
    assert ([x] + s)[1..] == s;
  }

  lemma InsertFront<T>(x: T, s: seq<T>, key: T -> string)
    requires s == [] || LexLe(key(x), key(s[0]))
    ensures Insert(x, s, key) == [x] + s
  {
  }

  lemma InsertPast<T>(x: T, y: T, t: seq<T>, key: T -> string)
    requires !LexLe(key(x), key(y))
    ensures Insert(x, [y] + t, key) == [y] + Insert(x, t, key)
  {
    assert ([y] + t)[0] == y && ([y] + t)[1..] == t;
  }

  lemma SortByCons<T>(x: T, t: seq<T>, key: T -> string)
    ensures SortBy([x] + t, key) == Insert(x, SortBy(t, key), key)
  {
    assert ([x] + t)[0] == x && ([x] + t)[1..] == t;
  }

  /** Two elements with different keys may trade places without changing any key class. */
  lemma ClassesCommute<T>(a: T, b: T, rest: seq<T>, key: T -> string, k: string)
    requires key(a) != key(b)
    ensures (if key(a) == k then [a] else []) + ((if key(b) == k then [b] else []) + rest)
         == (if key(b) == k then [b] else []) + ((if key(a) == k then [a] else []) + rest)
  {
    if key(a) == k {
      assert (if key(b) == k then [b] else []) == [];
    }
  }

  lemma {:induction false} InsertKeyClass<T>(x: T, s: seq<T>, key: T -> string, k: string)
    ensures KeyClass(Insert(x, s, key), key, k) ==
      (if key(x) == k then [x] else []) + KeyClass(s, key, k)
  {
    if s == [] || LexLe(key(x), key(s[0])) {
      assert Insert(x, s, key) == [x] + s;
      KeyClassCons(x, s, key, k);
    } else {
      var t := Insert(x, s[1..], key);
      assert Insert(x, s, key) == [s[0]] + t;
      LexLeRefl(key(x));
      InsertKeyClass(x, s[1..], key, k);
      KeyClassCons(s[0], t, key, k);
      KeyClassCons(s[0], s[1..], key, k);
      assert [s[0]] + s[1..] == s;
      ClassesCommute(s[0], x, KeyClass(s[1..], key, k), key, k);
    }
  }

  /** `SortBy` is a stable sort. */
  lemma {:induction false} SortBySpec<T>(s: seq<T>, key: T -> string)
    ensures SortedBy(SortBy(s, key), key)
    ensures forall k :: KeyClass(SortBy(s, key), key, k) == KeyClass(s, key, k)
  {
    if s != [] {
      SortBySpec(s[1..], key);
      InsertSorted(s[0], SortBy(s[1..], key), key);
      forall k
        ensures KeyClass(SortBy(s, key), key, k) == KeyClass(s, key, k)
      {
        InsertKeyClass(s[0], SortBy(s[1..], key), key, k);
        KeyClassCons(s[0], s[1..], key, k);
        assert [s[0]] + s[1..] == s;
      }
    }
  }

  lemma {:induction false} KeyClassMembers<T>(s: seq<T>, key: T -> string, k: string)
    ensures forall x :: x in KeyClass(s, key, k) ==> x in s && key(x) == k
  {
    if s != [] {
      KeyClassMembers(s[1..], key, k);
    }
  }

  /** The head of a sequence is found in its head's key class, so in any sequence with the same classes. */
  lemma HeadInOther<T>(r1: seq<T>, r2: seq<T>, key: T -> string)
    requires r1 != [] && SortedBy(r2, key)
    requires KeyClass(r1, key, key(r1[0])) == KeyClass(r2, key, key(r1[0]))
    ensures r2 != [] && LexLe(key(r2[0]), key(r1[0]))
  {
    KeyClassMembers(r2, key, key(r1[0]));
    assert r1[0] in KeyClass(r2, key, key(r1[0]));
    var j :| 0 <= j < |r2| && r2[j] == r1[0];
    if j == 0 {
      LexLeRefl(key(r1[0]));
    }
  }

  /**
   * Order by key and the order within each key class fix a sequence: two
   * sorted sequences with the same key classes are equal.
   */
  lemma {:induction false} SortedByUnique<T>(r1: seq<T>, r2: seq<T>, key: T -> string)
    requires SortedBy(r1, key) && SortedBy(r2, key)
    requires forall k :: KeyClass(r1, key, k) == KeyClass(r2, key, k)
    ensures r1 == r2
    decreases |r1|
  {
    if r1 != [] {
      HeadInOther(r1, r2, key);
      HeadInOther(r2, r1, key);
      var k0 := key(r1[0]);
      LexLeAntisym(k0, key(r2[0]));
      assert r1 == [r1[0]] + r1[1..] && r2 == [r2[0]] + r2[1..];
      forall k
        ensures KeyClass(r1[1..], key, k) == KeyClass(r2[1..], key, k)
      {
        KeyClassCons(r1[0], r1[1..], key, k);
        KeyClassCons(r2[0], r2[1..], key, k);
        var c1, c2 := KeyClass(r1[1..], key, k), KeyClass(r2[1..], key, k);
        if k == k0 {
          assert KeyClass(r1, key, k) == [r1[0]] + c1 && KeyClass(r2, key, k) == [r2[0]] + c2;
          assert ([r1[0]] + c1)[1..] == c1 && ([r2[0]] + c2)[1..] == c2;
        } else {
          assert KeyClass(r1, key, k) == [] + c1 && KeyClass(r2, key, k) == [] + c2;
          assert [] + c1 == c1 && [] + c2 == c2;
        }
      }
      KeyClassCons(r1[0], r1[1..], key, k0);
      KeyClassCons(r2[0], r2[1..], key, k0);
      assert r1[0] == KeyClass(r1, key, k0)[0] == KeyClass(r2, key, k0)[0] == r2[0];
      TailSorted(r1, key);
      TailSorted(r2, key);
      SortedByUnique(r1[1..], r2[1..], key);
    } else if r2 != [] {
      HeadInOther(r2, r1, key);
    }
  }

  /** `SortBy` is the only ordering of `s` by key that keeps each key class in input order. */
  lemma SortByUnique<T>(s: seq<T>, r: seq<T>, key: T -> string)
    requires SortedBy(r, key)
    requires forall k :: KeyClass(r, key, k) == KeyClass(s, key, k)
    ensures r == SortBy(s, key)
  {
    SortBySpec(s, key);
    SortedByUnique(r, SortBy(s, key), key);
  }

  lemma SortByMembers<T>(s: seq<T>, key: T -> string)
    ensures |SortBy(s, key)| == |s|
    ensures forall x :: x in SortBy(s, key) <==> x in s
  {
    var r := SortBy(s, key);
    assert |multiset(r)| == |multiset(s)|;
    forall x
      ensures x in r <==> x in s
    {
      assert x in r <==> x in multiset(r);
      assert x in s <==> x in multiset(s);
    }
  }
}
