/** SignalingList: a list that reports every change to it. Each mutation emits a pre-change
    signal (inserting, removing, replacing) before it changes the contents and the matching
    post-change signal (inserted, removed, replaced) after; the signals emitted are kept here,
    in order, as the list's event log. */
module SignalingLists {
  import opened Wrappers
  import opened PyList
  import Sorting

  /** A signal and its arguments. */
  datatype Event<E> =
    | Inserting(index: int, objs: seq<E>)
    | Inserted(index: int, objs: seq<E>)
    | Removing(idxs: seq<int>, objs: seq<E>)
    | Removed(idxs: seq<int>, objs: seq<E>)
    | Replacing(idxs: seq<int>, olds: seq<E>, news: seq<E>)
    | Replaced(idxs: seq<int>, olds: seq<E>, news: seq<E>)

  predicate IsPre<E>(e: Event<E>) {
    e.Inserting? || e.Removing? || e.Replacing?
  }

  /** The post-change signal that answers a pre-change one. */
  function PostOf<E>(e: Event<E>): Event<E>
    requires IsPre(e)
  {
    if e.Inserting? then Inserted(e.index, e.objs)
    else if e.Removing? then Removed(e.idxs, e.objs)
    else Replaced(e.idxs, e.olds, e.news)
  }

  /** A post-change signal describes a change that can be made to l: its indexes are valid
      and distinct, and the objects it says were removed or replaced are the ones there. */
  predicate Fits<E(==)>(l: seq<E>, e: Event<E>) {
    if e.Inserted? then 0 <= e.index <= |l|
    else if e.Removed? then InBounds(e.idxs, |l|) && Distinct(e.idxs) && e.objs == GetAt(l, e.idxs)
    else if e.Replaced? then InBounds(e.idxs, |l|) && Distinct(e.idxs) && e.olds == GetAt(l, e.idxs) && |e.news| == |e.idxs|
    else false
  }

  /** The change a post-change signal describes. */
  function Apply<E(==)>(l: seq<E>, e: Event<E>): seq<E>
    requires Fits(l, e)
  {
    if e.Inserted? then l[..e.index] + e.objs + l[e.index..]
    else if e.Removed? then Without(l, e.idxs)
    else ReplaceAt(l, e.idxs, e.news)
  }

  /** The contents a listener that knows the contents were l reconstructs from the signals
      evs: every pre-change signal must be followed at once by the post-change signal with
      identical arguments, and every post-change signal must fit the contents reached so
      far, whose change it then makes; None when the signals cannot be followed. */
  function Replay<E(==)>(l: seq<E>, evs: seq<Event<E>>): Option<seq<E>>
    decreases |evs|
  {
    if evs == [] then Some(l)
    else if IsPre(evs[0]) then (if |evs| >= 2 && evs[1] == PostOf(evs[0]) then Replay(l, evs[1..]) else None)
    else if Fits(l, evs[0]) then Replay(Apply(l, evs[0]), evs[1..])
    else None
  }

  /** The signals evs account exactly for the change from l to l'. */
  predicate Replays<E(==)>(l: seq<E>, evs: seq<Event<E>>, l': seq<E>) {
    Replay(l, evs) == Some(l')
  }

  lemma {:induction false} ReplaysThen<E>(l: seq<E>, a: seq<Event<E>>, m: seq<E>, b: seq<Event<E>>, l': seq<E>)
    requires Replays(l, a, m) && Replays(m, b, l')
    ensures Replays(l, a + b, l')
    decreases |a|
  {
    if a == [] {
      assert a + b == b;
    } else {
      var ab := a + b;
      assert ab[1..] == a[1..] + b;
      assert ab[0] == a[0];
      if IsPre(a[0]) {
        assert ab[1] == a[1];
        ReplaysThen(l, a[1..], m, b, l');
        assert Replays(l, ab[1..], l');
      } else {
        ReplaysThen(Apply(l, a[0]), a[1..], m, b, l');
        assert Replays(Apply(l, ab[0]), ab[1..], l');
      }
    }
  }

  /** A pre-change signal and its post-change signal. */
  function Bracket<E>(pre: Event<E>): seq<Event<E>>
    requires IsPre(pre)
  {
    [pre, PostOf(pre)]
  }

  lemma BracketReplays<E>(l: seq<E>, pre: Event<E>)
    requires IsPre(pre) && Fits(l, PostOf(pre))
    ensures Replays(l, Bracket(pre), Apply(l, PostOf(pre)))
  {
    var b := Bracket(pre);
    assert b[1..] == [PostOf(pre)];
    assert b[1..][1..] == [];
    assert Replay(l, b) == Replay(l, b[1..]);
    assert !IsPre(b[1..][0]);
    assert Replay(l, b[1..]) == Replay(Apply(l, PostOf(pre)), b[1..][1..]);
  }

  // ---------------------------------------------------------------------------------------
  // The signals each operation emits

  /** clear(): every index with every object. */
  function ClearSignals<E>(l: seq<E>): seq<Event<E>> {
    Bracket(Removing(Upto(|l|), l))
  }

  /** del l[s]: nothing when the slice selects nothing. */
  function DelSliceSignals<E>(l: seq<E>, s: Slice): seq<Event<E>>
    requires Indices(s, |l|).Success?
  {
    PositionsValid(s, |l|);
    var idxs := Positions(Indices(s, |l|).value);
    var objs := GetAt(l, idxs);
    if |objs| == 0 then [] else Bracket(Removing(idxs, objs))
  }

  /** del l[k] for the position k the index names. */
  function DelIndexSignals<E>(l: seq<E>, k: nat): seq<Event<E>>
    requires k < |l|
  {
    Bracket(Removing([k], [l[k]]))
  }

  /** l[k] = v: only the post-change signal. */
  function SetIndexSignals<E>(l: seq<E>, k: nat, v: E): seq<Event<E>>
    requires k < |l|
  {
    [Replaced([k], [l[k]], [v])]
  }

  /** extend(srcs): an insertion at the end. */
  function ExtendSignals<E>(l: seq<E>, srcs: seq<E>): seq<Event<E>> {
    Bracket(Inserting(|l|, srcs))
  }

  /** insert(i, x): an insertion at the position slice.indices() makes of i:i. */
  function InsertSignals<E>(l: seq<E>, i: int, x: E): seq<Event<E>> {
    Bracket(Inserting(Indices(Span(i, i), |l|).value.start, [x]))
  }

  /** l[start:stop] = srcs with a unit step, whose n destinations are start, start + 1, ...
      (RangeUnit): the first min(#srcs, n) destinations are replaced in one replacement, then either the surplus sources are
      inserted right after them or the surplus destinations are deleted. */
  function UnitSignals<E>(l: seq<E>, start: int, stop: int, srcs: seq<E>): seq<Event<E>>
    requires 0 <= start <= |l| && 0 <= stop <= |l|
  {
    var n := if start < stop then stop - start else 0;
    var c := Min(|srcs|, n);
    ReplaceSignals(l, start, srcs[..c]) + TailSignals(l[..start] + srcs[..c] + l[start + c..], start + c, stop, |srcs| - n, srcs[c..])
  }

  /** The positions from `at` on replaced by news, in one replacement when there are any. */
  function ReplaceSignals<E>(l: seq<E>, at: nat, news: seq<E>): seq<Event<E>>
    requires at + |news| <= |l|
  {
    if |news| > 0 then Bracket(Replacing(Range(at, at + |news|, 1), l[at..at + |news|], news)) else []
  }

  /** After the replacement, in the list l1 so far: the surplus sources inserted at `at`, or
      the surplus destinations, from `at` to stop, deleted by del l1[at:stop] (whose signals
      TrimSignals gives). */
  function TailSignals<E>(l1: seq<E>, at: int, stop: int, surplus: int, inserts: seq<E>): seq<Event<E>>
    requires 0 <= at <= |l1| && 0 <= stop <= |l1|
    requires surplus < 0 ==> at < stop
  {
    if surplus > 0 then Bracket(Inserting(at, inserts))
    else if surplus < 0 then Bracket(Removing(Range(at, stop, 1), l1[at..stop]))
    else []
  }

  /** The contents after what follows the replacement. */
  function TailContents<E>(l1: seq<E>, at: int, stop: int, surplus: int, inserts: seq<E>): seq<E>
    requires 0 <= at <= |l1| && 0 <= stop <= |l1|
    requires surplus < 0 ==> at < stop
  {
    if surplus > 0 then l1[..at] + inserts + l1[at..]
    else if surplus < 0 then l1[..at] + l1[stop..]
    else l1
  }

  /** l[s] = srcs: with a unit step as above; with another step, one replacement of every
      destination. */
  function SetSliceSignals<E>(l: seq<E>, s: Slice, srcs: seq<E>): seq<Event<E>>
    requires AssignSlice(l, s, srcs).Success?
  {
    PositionsValid(s, |l|);
    var b := Indices(s, |l|).value;
    var dests := Positions(b);
    if b.step == 1 then UnitSignals(l, b.start, b.stop, srcs)
    else Bracket(Replacing(dests, GetAt(l, dests), srcs))
  }

  // ---------------------------------------------------------------------------------------
  // The list

  class SignalingList<E(==)> {
    /** The contents (`_list`). */
    var items: seq<E>
    /** Every signal emitted so far, in order. */
    var events: seq<Event<E>>

    constructor (init: seq<E>)
      ensures items == init && events == []
    {
      items := init;
      events := [];
    }

    /** clear(): removes every element, reporting every index, even when there is none. */
    method Clear()
      modifies this
      ensures items == [] && events == old(events) + ClearSignals(old(items))
    {
      var idxs := Upto(|items|);
      var objs := items;
      events := events + [Removing(idxs, objs)];
      items := [];
      events := events + [Removed(idxs, objs)];
    }

    /** del self[s]. */
    method DelSlice(s: Slice) returns (err: Option<PyError>)
      modifies this
      ensures var r := PyList.DelSlice(old(items), s);
              if r.Failure? then err == Some(r.error) && items == old(items) && events == old(events)
              else err.None? && items == r.value && events == old(events) + DelSliceSignals(old(items), s)
    {
      var objs := GetSlice(items, s);
      if objs.Failure? {
        return Some(objs.error);
      }
      PositionsValid(s, |items|);
      var idxs := Positions(Indices(s, |items|).value);
      if objs.value == [] {
        WithoutNothing(items);
        return None;
      }
      events := events + [Removing(idxs, objs.value)];
      items := Without(items, idxs);
      events := events + [Removed(idxs, objs.value)];
      err := None;
    }

    /** del self[i], reporting the position the index names. */
    method DelIndex(i: int) returns (err: Option<PyError>)
      modifies this
      ensures var r := PyList.DelIndex(old(items), i);
              if r.Failure? then err == Some(r.error) && items == old(items) && events == old(events)
              else err.None? && items == r.value && events == old(events) + DelIndexSignals(old(items), PyIndex(|old(items)|, i).value)
    {
      var k := PyIndex(|items|, i);
      if k.None? {
        return Some(IndexError);
      }
      var objs := [items[k.value]];
      events := events + [Removing([k.value], objs)];
      items := items[..k.value] + items[k.value + 1..];
      events := events + [Removed([k.value], objs)];
      err := None;
    }

    /** self[i] = v, emitting only `replaced`, at the position the index names. */
    method SetIndex(i: int, v: E) returns (err: Option<PyError>)
      modifies this
      ensures var r := AssignIndex(old(items), i, v);
              if r.Failure? then err == Some(r.error) && items == old(items) && events == old(events)
              else err.None? && items == r.value && events == old(events) + SetIndexSignals(old(items), PyIndex(|old(items)|, i).value, v)
    {
      var k := PyIndex(|items|, i);
      if k.None? {
        return Some(IndexError);
      }
      var replaceds := [items[k.value]];
      items := items[k.value := v];
      events := events + [Replaced([k.value], replaceds, [v])];
      err := None;
    }

    /** self[s] = srcs. A unit-step slice is replaced, then extended by insertion or
        trimmed by deletion; an extended slice needs one source per destination and raises
        otherwise (a NameError: the message names an undefined variable). */
    method SetSlice(s: Slice, srcs: seq<E>) returns (err: Option<PyError>)
      modifies this
      ensures var r := AssignSlice(old(items), s, srcs);
              if r.Failure? then err.Some? && items == old(items) && events == old(events)
              else err.None? && items == r.value && events == old(events) + SetSliceSignals(old(items), s, srcs)
      ensures err == Some(ValueError) <==> s.step == Some(0)
      ensures err == Some(NameError) <==> AssignSlice(old(items), s, srcs).Failure? && s.step != Some(0)
    {
      var n := |items|;
      var range := Indices(s, n);
      if range.Failure? {
        return Some(range.error);
      }
      var b := range.value;
      PositionsValid(s, n);
      var dests := Positions(b);
      if b.step == 1 {
        SetUnitSlice(b.start, b.stop, srcs);
        err := None;
      } else {
        if |dests| != |srcs| {
          return Some(NameError);
        }
        var replaceds := GetAt(items, dests);
        events := events + [Replacing(dests, replaceds, srcs)];
        items := ReplaceAt(items, dests, srcs);
        events := events + [Replaced(dests, replaceds, srcs)];
        err := None;
      }
    }

    /** The unit-step case of self[start:stop] = srcs, for bounds slice.indices() gave. */
    method SetUnitSlice(start: int, stop: int, srcs: seq<E>)
      requires 0 <= start <= |items| && 0 <= stop <= |items|
      modifies this
      ensures items == old(items)[..start] + srcs + old(items)[if stop < start then start else stop..]
      ensures events == old(events) + UnitSignals(old(items), start, stop, srcs)
    {
      var n := if start < stop then stop - start else 0;
      var common := Min(|srcs|, n);
      ReplaceCommon(start, srcs[..common]);
      ghost var l1 := items;
      ghost var e1 := events;
      FinishUnitSlice(start + common, stop, |srcs| - n, srcs[common..]);
      ghost var tail := TailSignals(l1, start + common, stop, |srcs| - n, srcs[common..]);
      assert events == (old(events) + ReplaceSignals(old(items), start, srcs[..common])) + tail;
      UnitItemsDone(old(items), start, stop, srcs, common, l1, items);
    }

    /** What follows the replacement: with surplus sources, one insertion of them at `at`;
        with surplus destinations, the deletion of those from `at` to stop. */
    method FinishUnitSlice(at: int, stop: int, surplus: int, inserts: seq<E>)
      requires 0 <= at <= |items| && 0 <= stop <= |items|
      requires surplus < 0 ==> at < stop
      modifies this
      ensures items == TailContents(old(items), at, stop, surplus, inserts)
      ensures events == old(events) + TailSignals(old(items), at, stop, surplus, inserts)
    {
      if surplus > 0 {
        events := events + [Inserting(at, inserts)];
        items := items[..at] + inserts + items[at..];
        events := events + [Inserted(at, inserts)];
      } else if surplus < 0 {
        TrimSignals(items, at, stop);
        var d := DelSlice(Span(at, stop));
      }
    }

    /** The replacement step: the run of positions from `at` replaced by news, with one
        replacing/replaced pair. */
    method ReplaceCommon(at: nat, news: seq<E>)
      requires at + |news| <= |items|
      modifies this
      ensures items == old(items)[..at] + news + old(items)[at + |news|..]
      ensures events == old(events) + ReplaceSignals(old(items), at, news)
    {
      if |news| > 0 {
        var idxs := Range(at, at + |news|, 1);
        var replaceds := items[at..at + |news|];
        events := events + [Replacing(idxs, replaceds, news)];
        items := items[..at] + news + items[at + |news|..];
        events := events + [Replaced(idxs, replaceds, news)];
      } else {
        assert items == items[..at] + news + items[at..];
      }
    }

    /** extend(srcs): one insertion at the end. */
    method Extend(srcs: seq<E>)
      modifies this
      ensures items == PyList.Extend(old(items), srcs)
      ensures events == old(events) + ExtendSignals(old(items), srcs)
    {
      var idx := |items|;
      events := events + [Inserting(idx, srcs)];
      items := items + srcs;
      events := events + [Inserted(idx, srcs)];
    }

    /** insert(i, x): a negative index counts from the end; the position is then clamped to
        [0, len]. */
    method Insert(i: int, x: E)
      modifies this
      ensures items == PyList.Insert(old(items), i, x)
      ensures events == old(events) + InsertSignals(old(items), i, x)
    {
      var idx := i;
      if idx < 0 {
        idx := idx + |items|;
      }
      if idx < 0 {
        idx := 0;
      } else if idx > |items| {
        idx := |items|;
      }
      var objs := [x];
      events := events + [Inserting(idx, objs)];
      items := items[..idx] + [x] + items[idx..];
      events := events + [Inserted(idx, objs)];
    }

    /** sort(key, reverse): the whole list assigned its sorted contents. */
    method Sort(key: E -> int, reverse: bool)
      modifies this
      ensures items == Sorting.Sorted(old(items), key, reverse)
      ensures events == old(events) + SetSliceSignals(old(items), All, Sorting.Sorted(old(items), key, reverse))
    {
      var sorted := Sorting.Sorted(items, key, reverse);
      var err := SetSlice(All, sorted);
      RangeUnit(0, |old(items)|);
    }

    /** self == other, where other is None for an object without a length: equal lengths
        and pairwise equal elements. */
    function Equals(other: Option<seq<E>>): (r: bool)
      reads this
      ensures r <==> other == Some(items)
    {
      other.Some? && PairwiseEqual(items, other.value)
    }
  }

  /** Inserting the surplus sources after the replaced ones, or deleting the surplus
      destinations after them, leaves the list assignment's result. */
  lemma UnitItemsDone<E>(l: seq<E>, start: int, stop: int, srcs: seq<E>, c: nat, l1: seq<E>, l2: seq<E>)
    requires 0 <= start <= |l| && 0 <= stop <= |l|
    requires c == Min(|srcs|, if start < stop then stop - start else 0)
    requires l1 == l[..start] + srcs[..c] + l[start + c..]
    requires |l1| == |l|
    requires l2 == TailContents(l1, start + c, stop, |srcs| - (if start < stop then stop - start else 0), srcs[c..])
    ensures l2 == l[..start] + srcs + l[if stop < start then start else stop..]
  {
    assert l1[..start + c] == l[..start] + srcs[..c];
    assert srcs[..c] + srcs[c..] == srcs;
    if start + c <= stop {
      assert l1[stop..] == l[stop..];
    }
    assert l1[start + c..] == l[start + c..];
  }

  /** zip-wise comparison of two sequences of equal length. */
  predicate PairwiseEqual<E(==)>(a: seq<E>, b: seq<E>)
    ensures PairwiseEqual(a, b) <==> a == b
  {
    |a| == |b| && forall i :: 0 <= i < |a| ==> a[i] == b[i]
  }

  // ---------------------------------------------------------------------------------------
  // Every operation's signals account for the change it makes

  /** clear() empties the list, as del l[:] does, and its signals say so. */
  lemma ClearReplays<E>(l: seq<E>)
    ensures PyList.DelSlice(l, All) == Success([])
    ensures Replays(l, ClearSignals(l), [])
  {
    RangeUnit(0, |l|);
    WithoutRun(l, 0, |l|);
    assert GetAt(l, Upto(|l|)) == l;
    BracketReplays(l, Removing(Upto(|l|), l));
  }

  /** del l[s]: the signals, none at all when the slice selects nothing, account for the
      deletion; it shortens the list by the number of elements selected. */
  lemma DelSliceReplays<E>(l: seq<E>, s: Slice)
    requires Indices(s, |l|).Success?
    ensures Replays(l, DelSliceSignals(l, s), PyList.DelSlice(l, s).value)
    ensures |PyList.DelSlice(l, s).value| == |l| - |GetSlice(l, s).value|
    ensures DelSliceSignals(l, s) == [] <==> GetSlice(l, s).value == []
    ensures GetSlice(l, s).value == [] ==> PyList.DelSlice(l, s).value == l
  {
    PositionsValid(s, |l|);
    var idxs := Positions(Indices(s, |l|).value);
    WithoutLength(l, idxs);
    if |idxs| == 0 {
      assert idxs == [];
      WithoutNothing(l);
    } else {
      BracketReplays(l, Removing(idxs, GetAt(l, idxs)));
    }
  }

  /** del l[i]: the signals name the position removed and account for the deletion. */
  lemma DelIndexReplays<E>(l: seq<E>, i: int)
    requires PyList.DelIndex(l, i).Success?
    ensures var k := PyIndex(|l|, i).value;
            Replays(l, DelIndexSignals(l, k), PyList.DelIndex(l, i).value)
  {
    var k := PyIndex(|l|, i).value;
    assert Range(k + 1, k + 1, 1) == [];
    assert Range(k, k + 1, 1) == [k];
    WithoutRun(l, k, k + 1);
    assert GetAt(l, [k]) == [l[k]];
    BracketReplays(l, Removing([k], [l[k]]));
  }

  /** l[i] = v: the one signal names the position replaced and accounts for the change. */
  lemma SetIndexReplays<E>(l: seq<E>, i: int, v: E)
    requires AssignIndex(l, i, v).Success?
    ensures var k := PyIndex(|l|, i).value;
            Replays(l, SetIndexSignals(l, k, v), AssignIndex(l, i, v).value)
  {
    var k := PyIndex(|l|, i).value;
    var e := Replaced([k], [l[k]], [v]);
    assert GetAt(l, [k]) == [l[k]];
    assert Fits(l, e);
    assert ReplaceAt(l, [k], [v]) == ReplaceAt(l[k := v], [], []);
    assert [e][1..] == [];
  }

  /** extend(t): one insertion at the end that accounts for appending t. */
  lemma ExtendReplays<E>(l: seq<E>, t: seq<E>)
    ensures PyList.Extend(l, t) == l + t
    ensures Replays(l, ExtendSignals(l, t), PyList.Extend(l, t))
  {
    assert l[|l|..] == [];
    BracketReplays(l, Inserting(|l|, t));
  }

  /** insert(i, x): x lands before the element at i, counting from the end when i is
      negative and clamped to the list; the signals account for that insertion. */
  lemma InsertReplays<E>(l: seq<E>, i: int, x: E)
    ensures var p := if i < 0 then (if i + |l| < 0 then 0 else i + |l|) else (if i > |l| then |l| else i);
            PyList.Insert(l, i, x) == l[..p] + [x] + l[p..] && InsertSignals(l, i, x) == Bracket(Inserting(p, [x]))
    ensures |PyList.Insert(l, i, x)| == |l| + 1
    ensures Replays(l, InsertSignals(l, i, x), PyList.Insert(l, i, x))
  {
    var p := Indices(Span(i, i), |l|).value.start;
    BracketReplays(l, Inserting(p, [x]));
  }

  /** The replacement of the run from `at` accounts for writing news over it. */
  lemma ReplaceSignalsReplays<E>(l: seq<E>, at: nat, news: seq<E>, c: nat)
    requires c == |news| && at + c <= |l|
    ensures Replays(l, ReplaceSignals(l, at, news), l[..at] + news + l[at + c..])
  {
    if |news| > 0 {
      var idxs := Range(at, at + |news|, 1);
      RangeUnit(at, at + |news|);
      ReplaceRun(l, idxs, at, news);
      assert GetAt(l, idxs) == l[at..at + |news|];
      BracketReplays(l, Replacing(idxs, l[at..at + |news|], news));
    } else {
      assert l[..at] + news + l[at..] == l;
    }
  }

  /** What follows the replacement accounts for the insertion or the deletion it makes. */
  lemma TailSignalsReplays<E>(l1: seq<E>, at: int, stop: int, surplus: int, inserts: seq<E>)
    requires 0 <= at <= |l1| && 0 <= stop <= |l1|
    requires surplus < 0 ==> at < stop
    ensures Replays(l1, TailSignals(l1, at, stop, surplus, inserts), TailContents(l1, at, stop, surplus, inserts))
  {
    if surplus > 0 {
      BracketReplays(l1, Inserting(at, inserts));
    } else if surplus < 0 {
      TrimSignals(l1, at, stop);
      DelSliceReplays(l1, Span(at, stop));
    }
  }

  /** del l[a:b] for a non-empty run: one removal of the positions a .. b - 1 and of the
      elements there. */
  lemma TrimSignals<E>(l: seq<E>, a: int, b: int)
    requires 0 <= a < b <= |l|
    ensures PyList.DelSlice(l, Span(a, b)) == Success(l[..a] + l[b..])
    ensures DelSliceSignals(l, Span(a, b)) == Bracket(Removing(Range(a, b, 1), l[a..b]))
  {
    RangeUnit(a, b);
    WithoutRun(l, a, b);
    assert GetAt(l, Range(a, b, 1)) == l[a..b];
  }

  /** l[s] = srcs: whenever the assignment succeeds, its signals account for exactly the
      contents Python's list assignment produces. */
  lemma SetSliceReplays<E>(l: seq<E>, s: Slice, srcs: seq<E>)
    requires AssignSlice(l, s, srcs).Success?
    ensures Replays(l, SetSliceSignals(l, s, srcs), AssignSlice(l, s, srcs).value)
  {
    PositionsValid(s, |l|);
    var b := Indices(s, |l|).value;
    if b.step == 1 {
      UnitSignalsReplay(l, b.start, b.stop, srcs);
    } else {
      var dests := Positions(b);
      BracketReplays(l, Replacing(dests, GetAt(l, dests), srcs));
    }
  }

  /** The unit-step signals: the replacement, then the insertion or deletion after it,
      account for the list assignment's result. */
  lemma UnitSignalsReplay<E>(l: seq<E>, start: int, stop: int, srcs: seq<E>)
    requires 0 <= start <= |l| && 0 <= stop <= |l|
    ensures Replays(l, UnitSignals(l, start, stop, srcs), l[..start] + srcs + l[if stop < start then start else stop..])
  {
    var n := if start < stop then stop - start else 0;
    var c := Min(|srcs|, n);
    var l1 := l[..start] + srcs[..c] + l[start + c..];
    var l2 := TailContents(l1, start + c, stop, |srcs| - n, srcs[c..]);
    ReplaceSignalsReplays(l, start, srcs[..c], c);
    TailSignalsReplays(l1, start + c, stop, |srcs| - n, srcs[c..]);
    ReplaysThen(l, ReplaceSignals(l, start, srcs[..c]), l1, TailSignals(l1, start + c, stop, |srcs| - n, srcs[c..]), l2);
    UnitItemsDone(l, start, stop, srcs, c, l1, l2);
  }

  /** Assigning the whole of a list new contents of its own length: one replacement of
      every position, or nothing for an empty list. */
  lemma WholeAssign<E>(l: seq<E>, srcs: seq<E>)
    requires |srcs| == |l|
    ensures AssignSlice(l, All, srcs) == Success(srcs)
    ensures SetSliceSignals(l, All, srcs) == if l == [] then [] else Bracket(Replacing(Upto(|l|), l, srcs))
  {
    assert srcs[..|l|] == srcs;
    assert l[..0] + srcs + l[|l|..] == srcs;
    assert l[0..|l|] == l;
    assert srcs[|l|..] == [];
  }

  /** sort(): a non-empty list has every position replaced at once by the sorted contents;
      an empty one emits nothing. */
  lemma SortSignals<E>(l: seq<E>, key: E -> int, reverse: bool)
    ensures var sorted := Sorting.Sorted(l, key, reverse);
            AssignSlice(l, All, sorted) == Success(sorted) &&
            SetSliceSignals(l, All, sorted) == if l == [] then [] else Bracket(Replacing(Upto(|l|), l, sorted))
    ensures Replays(l, SetSliceSignals(l, All, Sorting.Sorted(l, key, reverse)), Sorting.Sorted(l, key, reverse))
  {
    var sorted := Sorting.Sorted(l, key, reverse);
    WholeAssign(l, sorted);
    SetSliceReplays(l, All, sorted);
  }

  // ---------------------------------------------------------------------------------------
  // Single-index assignment and deletion as the source writes them

  /** self[i] = v as written: a negative i is made relative to the end once, and the result
      is then used as a Python index again, which counts from the end a second time; the
      signal carries the index as computed. */
  function SetIndexAsWritten<E>(l: seq<E>, i: int, v: E): Result<(seq<E>, seq<Event<E>>), PyError> {
    var idx := if i >= 0 then i else |l| + i;
    var k := PyIndex(|l|, idx);
    if k.None? then Failure(IndexError)
    else Success((l[k.value := v], [Replaced([idx], [l[k.value]], [v])]))
  }

  /** On a two-element list, index -3 is out of range for a Python list, but the source
      wraps it twice: it overwrites the last element and reports position -1, which no
      listener can replay. */
  lemma SetIndexWrapsTwice()
    ensures AssignIndex([7, 8], -3, 9) == Failure(IndexError)
    ensures SetIndexAsWritten([7, 8], -3, 9) == Success(([7, 9], [Replaced([-1], [8], [9])]))
    ensures !Replays([7, 8], [Replaced([-1], [8], [9])], [7, 9])
  {
    assert [7, 8][1 := 9] == [7, 9];
    assert !InBounds([-1], 2) by {
      assert [-1][0] == -1;
    }
  }

  /** del self[i] as written: the signals carry i itself, negative or not. */
  function DelIndexAsWritten<E>(l: seq<E>, i: int): Result<(seq<E>, seq<Event<E>>), PyError> {
    var k := PyIndex(|l|, i);
    if k.None? then Failure(IndexError)
    else Success((l[..k.value] + l[k.value + 1..], Bracket(Removing([i], [l[k.value]]))))
  }

  /** del self[-1] on a two-element list removes the last element but reports position
      -1, which no listener can replay. */
  lemma DelIndexReportsRawIndex()
    ensures PyList.DelIndex([7, 8], -1) == Success([7])
    ensures DelIndexAsWritten([7, 8], -1) == Success(([7], [Removing([-1], [8]), Removed([-1], [8])]))
    ensures !Replays([7, 8], [Removing([-1], [8]), Removed([-1], [8])], [7])
  {
    assert [7, 8][..1] + [7, 8][2..] == [7];
    var evs := [Removing([-1], [8]), Removed([-1], [8])];
    assert evs[1..] == [Removed([-1], [8])];
    assert !InBounds([-1], 2) by {
      assert [-1][0] == -1;
    }
  }
}
