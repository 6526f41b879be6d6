/** Python's sorted(iterable, key=key, reverse=reverse) for an integer-valued key: a stable
    sort, ascending by key, or descending when reverse is set. */
module Sorting {

  /** x must come before y in the result. */
  predicate Before<E>(key: E -> int, reverse: bool, x: E, y: E) {
    if reverse then key(x) > key(y) else key(x) < key(y)
  }

  /** No element comes after one it must come before. */
  predicate SortedBy<E>(s: seq<E>, key: E -> int, reverse: bool) {
    forall i, j :: 0 <= i < j < |s| ==> !Before(key, reverse, s[j], s[i])
  }

  /** x placed into the sorted s after every element it need not come before. */
  function InsertSorted<E>(x: E, s: seq<E>, key: E -> int, reverse: bool): (r: seq<E>)
    ensures |r| == |s| + 1
  {
    if s == [] then [x]
    else if Before(key, reverse, x, s[0]) then [x] + s
    else [s[0]] + InsertSorted(x, s[1..], key, reverse)
  }

  /** sorted(l, key=key, reverse=reverse): each element in turn inserted after the equal ones
      before it. */
  function Sorted<E>(l: seq<E>, key: E -> int, reverse: bool): (r: seq<E>)
    ensures |r| == |l|
  {
    if l == [] then [] else InsertSorted(l[|l| - 1], Sorted(l[..|l| - 1], key, reverse), key, reverse)
  }

  lemma {:induction false} InsertSortedKeeps<E>(x: E, s: seq<E>, key: E -> int, reverse: bool)
    requires SortedBy(s, key, reverse)
    ensures SortedBy(InsertSorted(x, s, key, reverse), key, reverse)
    ensures multiset(InsertSorted(x, s, key, reverse)) == multiset(s) + multiset{x}
  {
    if s != [] && !Before(key, reverse, x, s[0]) {
      InsertSortedKeeps(x, s[1..], key, reverse);
      InsertSortedStep(x, s, key, reverse);
      assert s == [s[0]] + s[1..];
    }
  }

  lemma InsertSortedStep<E>(x: E, s: seq<E>, key: E -> int, reverse: bool)
    requires s != [] && !Before(key, reverse, x, s[0])
    requires SortedBy(s, key, reverse)
    requires SortedBy(InsertSorted(x, s[1..], key, reverse), key, reverse)
    requires multiset(InsertSorted(x, s[1..], key, reverse)) == multiset(s[1..]) + multiset{x}
    ensures SortedBy(InsertSorted(x, s, key, reverse), key, reverse)
  {
    var t := InsertSorted(x, s[1..], key, reverse);
    var r := [s[0]] + t;
    forall j | 0 <= j < |t|
      ensures !Before(key, reverse, t[j], s[0])
    {
      assert t[j] in multiset(s[1..]) + multiset{x};
      if t[j] != x {
        assert t[j] in s[1..];
        var m :| 0 <= m < |s[1..]| && s[1..][m] == t[j];
        assert s[m + 1] == t[j];
      }
    }
    forall i, j | 0 <= i < j < |r|
      ensures !Before(key, reverse, r[j], r[i])
    {
      if i > 0 {
        assert r[i] == t[i - 1] && r[j] == t[j - 1];
      } else {
        assert r[j] == t[j - 1];
      }
    }
  }

  /** The result of sorted() is in key order and holds exactly the elements given. */
  lemma {:induction false} SortedCorrect<E>(l: seq<E>, key: E -> int, reverse: bool)
    ensures SortedBy(Sorted(l, key, reverse), key, reverse)
    ensures multiset(Sorted(l, key, reverse)) == multiset(l)
  {
    if l != [] {
      var init := l[..|l| - 1];
      SortedCorrect(init, key, reverse);
      InsertSortedKeeps(l[|l| - 1], Sorted(init, key, reverse), key, reverse);
      assert l == init + [l[|l| - 1]];
    }
  }
}
