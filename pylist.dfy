/** The semantics of Python's built-in `list` that the signaling lists mirror: slices and
    slice.indices(), slice assignment, deletion, insertion and single-index access. These
    definitions are the reference a signaling list's contents are compared against. */
module PyList {
  import opened Wrappers

  /** The exceptions list operations raise. */
  datatype PyError = ValueError | IndexError | NameError

  /** A slice object: start, stop and step, each possibly None. */
  datatype Slice = Slice(start: Option<int>, stop: Option<int>, step: Option<int>)

  /** The (start, stop, step) triple slice.indices() returns. */
  datatype Bounds = Bounds(start: int, stop: int, step: int)

  /** The slice `i:j` with no step. */
  function Span(i: int, j: int): Slice {
    Slice(Some(i), Some(j), None)
  }

  /** The whole-list slice `:`. */
  const All: Slice := Slice(None, None, None)

  /** An index given to a slice, made relative to the start of a list of length len and
      then clamped to [lower, upper]. */
  function Adjust(i: int, len: nat, lower: int, upper: int): int {
    if i < 0 then (if i + len < lower then lower else i + len)
    else if i > upper then upper else i
  }

  /** slice.indices(len). */
  function Indices(s: Slice, len: nat): (r: Result<Bounds, PyError>)
    ensures r.Success? <==> s.step != Some(0)
    ensures r.Success? ==> r.value.step != 0
    ensures r.Success? && r.value.step > 0 ==> 0 <= r.value.start <= len && 0 <= r.value.stop <= len
    ensures r.Success? && r.value.step < 0 ==> -1 <= r.value.start < len && -1 <= r.value.stop < len
  {
    var step := s.step.GetOr(1);
    if step == 0 then Failure(ValueError)
    else
      var lower := if step < 0 then -1 else 0;
      var upper := if step < 0 then len - 1 else len;
      var start := if s.start.None? then (if step < 0 then upper else lower) else Adjust(s.start.value, len, lower, upper);
      var stop := if s.stop.None? then (if step < 0 then lower else upper) else Adjust(s.stop.value, len, lower, upper);
      Success(Bounds(start, stop, step))
  }

  /** range(start, stop, step). */
  function Range(start: int, stop: int, step: int): (r: seq<int>)
    requires step != 0
    decreases if step > 0 then stop - start else start - stop
  {
    if (step > 0 && start < stop) || (step < 0 && start > stop) then [start] + Range(start + step, stop, step)
    else []
  }

  /** The list positions a slice selects. */
  function Positions(b: Bounds): seq<int>
    requires b.step != 0
  {
    Range(b.start, b.stop, b.step)
  }

  /** range(n). */
  function Upto(n: nat): seq<int> {
    Range(0, n, 1)
  }

  predicate InBounds(idxs: seq<int>, len: nat) {
    forall k :: 0 <= k < |idxs| ==> 0 <= idxs[k] < len
  }

  predicate Distinct(idxs: seq<int>) {
    forall k, m :: 0 <= k < m < |idxs| ==> idxs[k] != idxs[m]
  }

  /** A range visits its values strictly in the direction of its step, from start up to
      (and not including) stop. */
  lemma {:induction false} RangeMonotone(start: int, stop: int, step: int)
    requires step != 0
    ensures step > 0 ==> forall k :: 0 <= k < |Range(start, stop, step)| ==> start <= Range(start, stop, step)[k] < stop
    ensures step < 0 ==> forall k :: 0 <= k < |Range(start, stop, step)| ==> stop < Range(start, stop, step)[k] <= start
    ensures step > 0 ==> forall k, m :: 0 <= k < m < |Range(start, stop, step)| ==> Range(start, stop, step)[k] < Range(start, stop, step)[m]
    ensures step < 0 ==> forall k, m :: 0 <= k < m < |Range(start, stop, step)| ==> Range(start, stop, step)[k] > Range(start, stop, step)[m]
    decreases if step > 0 then stop - start else start - stop
  {
    var r := Range(start, stop, step);
    if r != [] {
      var r' := Range(start + step, stop, step);
      RangeMonotone(start + step, stop, step);
      assert r == [start] + r';
      assert forall k :: 1 <= k < |r| ==> r[k] == r'[k - 1];
    }
  }

  /** The positions of a slice of a list of length len are distinct valid indexes. */
  lemma PositionsValid(s: Slice, len: nat)
    requires Indices(s, len).Success?
    ensures InBounds(Positions(Indices(s, len).value), len)
    ensures Distinct(Positions(Indices(s, len).value))
  {
    var b := Indices(s, len).value;
    RangeMonotone(b.start, b.stop, b.step);
  }

  /** A unit-step range is the run of integers from start up to stop. */
  lemma {:induction false} RangeUnit(start: int, stop: int)
    ensures |Range(start, stop, 1)| == if start < stop then stop - start else 0
    ensures forall k :: 0 <= k < |Range(start, stop, 1)| ==> Range(start, stop, 1)[k] == start + k
    decreases stop - start
  {
    if start < stop {
      RangeUnit(start + 1, stop);
      var r := Range(start, stop, 1);
      assert forall k :: 1 <= k < |r| ==> r[k] == Range(start + 1, stop, 1)[k - 1];
    }
  }

  /** The elements at the given positions, in the order of the positions. */
  function GetAt<E>(l: seq<E>, idxs: seq<int>): (r: seq<E>)
    requires InBounds(idxs, |l|)
    ensures |r| == |idxs|
  {
    seq(|idxs|, k requires 0 <= k < |idxs| => l[idxs[k]])
  }

  /** The list with the element at idxs[k] replaced by srcs[k], for each k in turn. */
  function ReplaceAt<E>(l: seq<E>, idxs: seq<int>, srcs: seq<E>): (r: seq<E>)
    requires InBounds(idxs, |l|) && |srcs| == |idxs|
    ensures |r| == |l|
    decreases |idxs|
  {
    if idxs == [] then l else ReplaceAt(l[idxs[0] := srcs[0]], idxs[1..], srcs[1..])
  }

  /** The list without the elements at the given positions. */
  function Without<E>(l: seq<E>, idxs: seq<int>): (r: seq<E>)
    ensures |r| <= |l|
  {
    if l == [] then []
    else Without(l[..|l| - 1], idxs) + (if |l| - 1 in idxs then [] else [l[|l| - 1]])
  }

  /** l[s]. */
  function GetSlice<E>(l: seq<E>, s: Slice): Result<seq<E>, PyError> {
    var b := Indices(s, |l|);
    if b.Failure? then Failure(b.error)
    else
      PositionsValid(s, |l|);
      Success(GetAt(l, Positions(b.value)))
  }

  /** l[s] = srcs: a unit-step slice is replaced by all of srcs whatever their number; an
      extended slice takes exactly one source per position. */
  function AssignSlice<E>(l: seq<E>, s: Slice, srcs: seq<E>): Result<seq<E>, PyError> {
    var b := Indices(s, |l|);
    if b.Failure? then Failure(b.error)
    else if b.value.step == 1 then
      var start := b.value.start;
      var stop := if b.value.stop < start then start else b.value.stop;
      Success(l[..start] + srcs + l[stop..])
    else if |Positions(b.value)| != |srcs| then Failure(ValueError)
    else
      PositionsValid(s, |l|);
      Success(ReplaceAt(l, Positions(b.value), srcs))
  }

  /** del l[s]. */
  function DelSlice<E>(l: seq<E>, s: Slice): Result<seq<E>, PyError> {
    var b := Indices(s, |l|);
    if b.Failure? then Failure(b.error) else Success(Without(l, Positions(b.value)))
  }

  /** The position an integer index names in a list of length len: it counts from the end
      when negative; None when it is out of range (IndexError). */
  function PyIndex(len: nat, i: int): (r: Option<nat>)
    ensures r.Some? <==> -(len as int) <= i < len
    ensures r.Some? ==> r.value < len && (r.value == i || r.value == i + len)
  {
    if 0 <= i < len then Some(i) else if -(len as int) <= i < 0 then Some(i + len) else None
  }

  /** l[i] = v. */
  function AssignIndex<E>(l: seq<E>, i: int, v: E): Result<seq<E>, PyError> {
    var k := PyIndex(|l|, i);
    if k.None? then Failure(IndexError) else Success(l[k.value := v])
  }

  /** del l[i]. */
  function DelIndex<E>(l: seq<E>, i: int): Result<seq<E>, PyError> {
    var k := PyIndex(|l|, i);
    if k.None? then Failure(IndexError) else Success(l[..k.value] + l[k.value + 1..])
  }

  /** l.insert(i, x), which Python defines as l[i:i] = [x]. */
  function Insert<E>(l: seq<E>, i: int, x: E): seq<E> {
    AssignSlice(l, Span(i, i), [x]).value
  }

  /** l.extend(t), which Python defines as l[len(l):len(l)] = t. */
  function Extend<E>(l: seq<E>, t: seq<E>): seq<E> {
    AssignSlice(l, Span(|l|, |l|), t).value
  }

  /** A slice without a step never makes an assignment fail. */
  lemma UnitAssignSucceeds<E>(l: seq<E>, i: int, j: int, srcs: seq<E>)
    ensures AssignSlice(l, Span(i, j), srcs).Success?
    ensures var b := Indices(Span(i, j), |l|).value;
            AssignSlice(l, Span(i, j), srcs).value == l[..b.start] + srcs + l[if b.stop < b.start then b.start else b.stop..]
  {
  }

  /** Deleting the unit-step run [a, b) leaves the elements before a and from b on. */
  lemma {:induction false} WithoutRun<E>(l: seq<E>, a: int, b: int)
    requires 0 <= a <= b <= |l|
    ensures Without(l, Range(a, b, 1)) == l[..a] + l[b..]
  {
    RangeUnit(a, b);
    WithoutRunFrom(l, a, b);
  }

  lemma {:induction false} WithoutRunFrom<E>(l: seq<E>, a: int, b: int)
    requires 0 <= a <= b
    requires |Range(a, b, 1)| == b - a
    requires forall k :: 0 <= k < b - a ==> Range(a, b, 1)[k] == a + k
    ensures Without(l, Range(a, b, 1)) == l[..Min(a, |l|)] + l[Min(b, |l|)..]
    decreases |l|
  {
    var r := Range(a, b, 1);
    if l != [] {
      var last := |l| - 1;
      var init := l[..last];
      WithoutRunFrom(init, a, b);
      assert last in r <==> a <= last < b by {
        if a <= last < b {
          assert r[last - a] == last;
        }
      }
      assert Without(l, r) == Without(init, r) + (if last in r then [] else [l[last]]);
      if last < a {
        assert init[..Min(a, last)] + init[Min(b, last)..] == init;
        assert l[..Min(a, |l|)] + l[Min(b, |l|)..] == l == init + [l[last]];
      } else if last < b {
        assert init[..a] == l[..a] && init[last..] == [] && l[|l|..] == [];
        assert init[..Min(a, last)] + init[Min(b, last)..] == l[..a];
      } else {
        assert init[..a] == l[..a];
        SnocSuffix(l, b);
      }
    }
  }

  lemma SnocSuffix<E>(l: seq<E>, b: nat)
    requires b < |l|
    ensures l[..|l| - 1][b..] + [l[|l| - 1]] == l[b..]
  {
    assert l[b..] == l[b..|l| - 1] + [l[|l| - 1]];
    assert l[..|l| - 1][b..] == l[b..|l| - 1];
  }

  function Min(x: int, y: int): int {
    if x < y then x else y
  }

  /** What a deletion by positions keeps, and how long it is when the positions are
      distinct valid indexes. */
  lemma {:induction false} WithoutLength<E>(l: seq<E>, idxs: seq<int>)
    requires InBounds(idxs, |l|) && Distinct(idxs)
    ensures |Without(l, idxs)| == |l| - |idxs|
    decreases |l|
  {
    if idxs != [] {
      assert idxs[0] < |l|;
    }
    if l != [] {
      var last := |l| - 1;
      assert Without(l, idxs) == Without(l[..last], idxs) + (if last in idxs then [] else [l[last]]);
      if last in idxs {
        var p :| 0 <= p < |idxs| && idxs[p] == last;
        var rest := idxs[..p] + idxs[p + 1..];
        DropPosition(idxs, p, last);
        WithoutLength(l[..last], rest);
        WithoutSame(l[..last], idxs, rest);
      } else {
        assert InBounds(idxs, last) by {
          forall k | 0 <= k < |idxs| ensures idxs[k] < last {
            assert idxs[k] != last;
          }
        }
        WithoutLength(l[..last], idxs);
      }
    }
  }

  /** Distinct positions below last + 1 without the one that is last: distinct positions
      below last, holding every other element. */
  lemma DropPosition(idxs: seq<int>, p: nat, last: nat)
    requires InBounds(idxs, last + 1) && Distinct(idxs) && p < |idxs| && idxs[p] == last
    ensures InBounds(idxs[..p] + idxs[p + 1..], last) && Distinct(idxs[..p] + idxs[p + 1..])
    ensures |idxs[..p] + idxs[p + 1..]| == |idxs| - 1
    ensures forall i :: 0 <= i < last ==> (i in idxs <==> i in idxs[..p] + idxs[p + 1..])
  {
    var rest := idxs[..p] + idxs[p + 1..];
    forall k | 0 <= k < |rest| ensures rest[k] == idxs[if k < p then k else k + 1] {
    }
    assert Distinct(rest) by {
      forall k, m | 0 <= k < m < |rest| ensures rest[k] != rest[m] {
        var k' := if k < p then k else k + 1;
        var m' := if m < p then m else m + 1;
        assert rest[k] == idxs[k'] && rest[m] == idxs[m'];
      }
    }
    forall i | 0 <= i < last && i in idxs ensures i in rest {
      var q :| 0 <= q < |idxs| && idxs[q] == i;
      assert q != p;
      assert rest[if q < p then q else q - 1] == i;
    }
  }

  /** Two position lists that agree on the indexes of l delete the same elements. */
  lemma {:induction false} WithoutSame<E>(l: seq<E>, a: seq<int>, b: seq<int>)
    requires forall i :: 0 <= i < |l| ==> (i in a <==> i in b)
    ensures Without(l, a) == Without(l, b)
    decreases |l|
  {
    if l != [] {
      WithoutSame(l[..|l| - 1], a, b);
    }
  }

  /** Deleting no positions keeps the list. */
  lemma {:induction false} WithoutNothing<E>(l: seq<E>)
    ensures Without(l, []) == l
  {
    if l != [] {
      WithoutNothing(l[..|l| - 1]);
    }
  }

  /** Replacing the run of positions a, a + 1, ... by news writes news over that run. */
  lemma {:induction false} ReplaceRun<E>(l: seq<E>, idxs: seq<int>, a: int, news: seq<E>)
    requires 0 <= a && a + |news| <= |l| && |idxs| == |news|
    requires forall k :: 0 <= k < |idxs| ==> idxs[k] == a + k
    ensures InBounds(idxs, |l|)
    ensures ReplaceAt(l, idxs, news) == l[..a] + news + l[a + |news|..]
    decreases |idxs|
  {
    if idxs != [] {
      var l' := l[a := news[0]];
      ReplaceRun(l', idxs[1..], a + 1, news[1..]);
      assert l'[..a + 1] + news[1..] == l[..a] + news;
      assert l'[a + 1 + |news[1..]|..] == l[a + |news|..];
    }
  }

  /** l.index(x, start) for start >= 0: the first position from start on that holds x, or
      None where Python raises ValueError. */
  function IndexFrom<E(==)>(l: seq<E>, x: E, start: nat): (r: Option<nat>)
    ensures r.Some? ==> start <= r.value < |l| && l[r.value] == x && forall j :: start <= j < r.value ==> l[j] != x
    ensures r.None? ==> forall j :: start <= j < |l| ==> l[j] != x
    decreases |l| - start
  {
    if start >= |l| then None
    else if l[start] == x then Some(start)
    else IndexFrom(l, x, start + 1)
  }

  /** The positions a sequence of indexes names. */
  function PositionSet(idxs: seq<int>): set<int> {
    set k | k in idxs
  }

  /** The elements of l at the positions in S. */
  ghost function AtPositions<E>(l: seq<E>, S: set<int>): multiset<E> {
    if l == [] then multiset{}
    else AtPositions(l[..|l| - 1], S) + (if |l| - 1 in S then multiset{l[|l| - 1]} else multiset{})
  }

  lemma {:induction false} AtPositionsAdd<E>(l: seq<E>, S: set<int>, i: int)
    requires 0 <= i < |l| && i !in S
    ensures AtPositions(l, S + {i}) == AtPositions(l, S) + multiset{l[i]}
  {
    var init := l[..|l| - 1];
    if i < |l| - 1 {
      AtPositionsAdd(init, S, i);
      assert init[i] == l[i];
    } else {
      AtPositionsSame(init, S + {i}, S);
    }
  }

  lemma {:induction false} AtPositionsSame<E>(l: seq<E>, S: set<int>, T: set<int>)
    requires forall k :: 0 <= k < |l| ==> (k in S <==> k in T)
    ensures AtPositions(l, S) == AtPositions(l, T)
  {
    if l != [] {
      AtPositionsSame(l[..|l| - 1], S, T);
    }
  }

  /** A deletion by positions keeps exactly what is not at those positions. */
  lemma {:induction false} WithoutBag<E>(l: seq<E>, idxs: seq<int>)
    ensures multiset(Without(l, idxs)) + AtPositions(l, PositionSet(idxs)) == multiset(l)
  {
    if l != [] {
      var init := l[..|l| - 1];
      WithoutBag(init, idxs);
      assert l == init + [l[|l| - 1]];
    }
  }

  /** The elements GetAt collects at distinct positions are the elements at those positions. */
  lemma {:induction false} GetAtBag<E>(l: seq<E>, idxs: seq<int>)
    requires InBounds(idxs, |l|) && Distinct(idxs)
    ensures multiset(GetAt(l, idxs)) == AtPositions(l, PositionSet(idxs))
    decreases |idxs|
  {
    if idxs == [] {
      AtPositionsNone(l);
    } else {
      var rest := idxs[1..];
      assert InBounds(rest, |l|) && Distinct(rest) by {
        forall k | 0 <= k < |rest| ensures rest[k] == idxs[k + 1] { }
      }
      GetAtBag(l, rest);
      assert GetAt(l, idxs) == [l[idxs[0]]] + GetAt(l, rest);
      assert idxs[0] !in PositionSet(rest) by {
        forall k | 0 <= k < |rest| ensures rest[k] != idxs[0] {
          assert rest[k] == idxs[k + 1];
        }
      }
      assert PositionSet(idxs) == PositionSet(rest) + {idxs[0]} by {
        assert idxs == [idxs[0]] + rest;
      }
      AtPositionsAdd(l, PositionSet(rest), idxs[0]);
    }
  }

  lemma {:induction false} AtPositionsNone<E>(l: seq<E>)
    ensures AtPositions(l, PositionSet([])) == multiset{}
  {
    if l != [] {
      AtPositionsNone(l[..|l| - 1]);
    }
  }

  /** Deleting at distinct positions removes exactly the elements GetAt collects there. */
  lemma DeletedElements<E>(l: seq<E>, idxs: seq<int>)
    requires InBounds(idxs, |l|) && Distinct(idxs)
    ensures multiset(Without(l, idxs)) + multiset(GetAt(l, idxs)) == multiset(l)
  {
    WithoutBag(l, idxs);
    GetAtBag(l, idxs);
  }

  lemma UpdateBag<E>(l: seq<E>, i: int, v: E)
    requires 0 <= i < |l|
    ensures multiset(l[i := v]) + multiset{l[i]} == multiset(l) + multiset{v}
  {
    assert l == l[..i] + [l[i]] + l[i + 1..];
    assert l[i := v] == l[..i] + [v] + l[i + 1..];
  }

  /** Replacing at distinct positions swaps the elements GetAt collects there for srcs. */
  lemma {:induction false} ReplacedElements<E>(l: seq<E>, idxs: seq<int>, srcs: seq<E>)
    requires InBounds(idxs, |l|) && Distinct(idxs) && |srcs| == |idxs|
    ensures multiset(ReplaceAt(l, idxs, srcs)) + multiset(GetAt(l, idxs)) == multiset(l) + multiset(srcs)
    decreases |idxs|
  {
    if idxs != [] {
      var rest := idxs[1..];
      var l' := l[idxs[0] := srcs[0]];
      assert InBounds(rest, |l'|) && Distinct(rest) by {
        forall k | 0 <= k < |rest| ensures rest[k] == idxs[k + 1] { }
      }
      ReplacedElements(l', rest, srcs[1..]);
      assert GetAt(l', rest) == GetAt(l, rest) by {
        forall k | 0 <= k < |rest| ensures l'[rest[k]] == l[rest[k]] {
          assert rest[k] == idxs[k + 1];
        }
      }
      assert GetAt(l, idxs) == [l[idxs[0]]] + GetAt(l, rest);
      assert srcs == [srcs[0]] + srcs[1..];
      UpdateBag(l, idxs[0], srcs[0]);
      var a := multiset(ReplaceAt(l', rest, srcs[1..]));
      assert ReplaceAt(l, idxs, srcs) == ReplaceAt(l', rest, srcs[1..]);
      assert multiset(GetAt(l, idxs)) == multiset{l[idxs[0]]} + multiset(GetAt(l, rest));
      assert multiset(srcs) == multiset{srcs[0]} + multiset(srcs[1..]);
      calc {
        a + multiset(GetAt(l, idxs));
        (a + multiset(GetAt(l, rest))) + multiset{l[idxs[0]]};
        (multiset(l') + multiset(srcs[1..])) + multiset{l[idxs[0]]};
        (multiset(l') + multiset{l[idxs[0]]}) + multiset(srcs[1..]);
        (multiset(l) + multiset{srcs[0]}) + multiset(srcs[1..]);
      }
    }
  }
}
