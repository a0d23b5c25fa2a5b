/** A stable sort by an integer key, as Python's `sorted` and `list.sort` perform it. */
module Sorting {
  import opened Wrappers

  function Insert<T>(sorted: seq<T>, key: T -> int, x: T): (r: seq<T>)
    ensures |r| == |sorted| + 1
  {
    if sorted != [] && key(sorted[|sorted| - 1]) > key(x) then
      Insert(sorted[..|sorted| - 1], key, x) + [sorted[|sorted| - 1]]
    else
      sorted + [x]
  }

  function SortBy<T>(s: seq<T>, key: T -> int): (r: seq<T>)
    ensures |r| == |s|
  {
    if s == [] then [] else Insert(SortBy(s[..|s| - 1], key), key, s[|s| - 1])
  }

  ghost predicate Ascending<T>(s: seq<T>, key: T -> int) {
    forall i, j :: 0 <= i < j < |s| ==> key(s[i]) <= key(s[j])
  }

  lemma {:induction false} InsertMembers<T>(s: seq<T>, key: T -> int, x: T)
    ensures multiset(Insert(s, key, x)) == multiset(s) + multiset{x}
    ensures forall y :: y in Insert(s, key, x) ==> y in s || y == x
  {
    if s != [] && key(s[|s| - 1]) > key(x) {
      InsertMembers(s[..|s| - 1], key, x);
      assert s == s[..|s| - 1] + [s[|s| - 1]];
    }
  }

  lemma {:induction false} InsertAscending<T>(s: seq<T>, key: T -> int, x: T)
    requires Ascending(s, key)
    ensures Ascending(Insert(s, key, x), key)
  {
    if s != [] && key(s[|s| - 1]) > key(x) {
      var front, last := s[..|s| - 1], s[|s| - 1];
      InsertAscending(front, key, x);
      InsertMembers(front, key, x);
      var r := Insert(front, key, x);
      forall i | 0 <= i < |r| ensures key(r[i]) <= key(last) {
        assert r[i] in r;
      }
    }
  }

  /** The result is ascending by key and has the same elements as often. */
  lemma {:induction false} SortBySorts<T>(s: seq<T>, key: T -> int)
    ensures Ascending(SortBy(s, key), key)
    ensures multiset(SortBy(s, key)) == multiset(s)
  {
    if s != [] {
      var front, last := s[..|s| - 1], s[|s| - 1];
      SortBySorts(front, key);
      InsertAscending(SortBy(front, key), key, last);
      InsertMembers(SortBy(front, key), key, last);
      assert s == front + [last];
    }
  }

  lemma SortByMembers<T>(s: seq<T>, key: T -> int)
    ensures forall x :: x in SortBy(s, key) <==> x in s
  {
    SortBySorts(s, key);
    forall x ensures x in SortBy(s, key) <==> x in s {
      assert x in SortBy(s, key) <==> x in multiset(SortBy(s, key));
      assert x in s <==> x in multiset(s);
    }
  }

  lemma {:induction false} NoDupCounts<T>(s: seq<T>)
    ensures NoDup(s) <==> forall x :: x in s ==> multiset(s)[x] == 1
  {
    if s != [] {
      var front, last := s[..|s| - 1], s[|s| - 1];
      assert s == front + [last];
      NoDupCounts(front);
      if NoDup(s) {
        assert last !in front;
        assert NoDup(front);
      } else if NoDup(front) {
        assert last in front;
        assert multiset(s)[last] == multiset(front)[last] + 1;
      } else {
        var x :| x in front && multiset(front)[x] != 1;
        assert multiset(front)[x] >= 1 && multiset(s)[x] >= multiset(front)[x];
      }
    }
  }

  lemma SortByNoDup<T>(s: seq<T>, key: T -> int)
    requires NoDup(s)
    ensures NoDup(SortBy(s, key))
  {
    SortBySorts(s, key);
    SortByMembers(s, key);
    NoDupCounts(s);
    NoDupCounts(SortBy(s, key));
  }


  /** What is in order stays as it is. */
  lemma {:induction false} SortByKeepsSorted<T>(s: seq<T>, key: T -> int)
    requires Ascending(s, key)
    ensures SortBy(s, key) == s
  {
    if s != [] {
      SortByKeepsSorted(s[..|s| - 1], key);
      assert s == s[..|s| - 1] + [s[|s| - 1]];
    }
  }
}
