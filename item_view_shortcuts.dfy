/** The selected-rows deletion shortcut of an item view: the selected rows, sorted, are
    grouped into maximal runs of consecutive rows, and each run is removed with one
    removeRows call, the last run first, so that the rows of the earlier runs keep their
    positions. The handler's calls on the model are its output. */
module ItemViewShortcuts {
  import opened Wrappers
  import opened PyList
  import opened Sorting

  /** A selected model index: whether it is valid, and its row. */
  datatype ModelIndex = ModelIndex(valid: bool, row: int)

  /** A run of consecutive rows, start .. end inclusive. */
  datatype Run = Run(start: int, end: int)

  /** A removeRows(row, count) call on the model. */
  datatype RemoveCall = RemoveRows(row: int, count: int)

  /** The sort key: midx.row(). */
  function Row(m: ModelIndex): int {
    m.row
  }

  /** The rows of the valid indexes, in order; invalid indexes are skipped. */
  function ValidRows(midxs: seq<ModelIndex>): seq<int> {
    if midxs == [] then []
    else
      var last := midxs[|midxs| - 1];
      ValidRows(midxs[..|midxs| - 1]) + if last.valid then [last.row] else []
  }

  /** A row is among the valid rows exactly when a valid index with that row is selected. */
  lemma {:induction false} ValidRowsMembers(midxs: seq<ModelIndex>, x: int)
    ensures x in ValidRows(midxs) <==> ModelIndex(true, x) in midxs
  {
    if midxs != [] {
      var init := midxs[..|midxs| - 1];
      ValidRowsMembers(init, x);
      assert midxs == init + [midxs[|midxs| - 1]];
    }
  }

  /** The runs the handler's loop records for the rows in order. */
  function RunsOf(rows: seq<int>): seq<Run> {
    if rows == [] then [] else Step(RunsOf(rows[..|rows| - 1]), rows[|rows| - 1])
  }

  /** One row of the loop: a row one past the end of the current run extends it, any other
      row closes it and starts the next. */
  function Step(runs: seq<Run>, idx: int): seq<Run> {
    if runs != [] && idx - runs[|runs| - 1].end == 1 then runs[..|runs| - 1] + [Run(runs[|runs| - 1].start, idx)]
    else runs + [Run(idx, idx)]
  }

  predicate Ascending(rows: seq<int>) {
    forall i, j :: 0 <= i < j < |rows| ==> rows[i] < rows[j]
  }

  /** Every run is non-empty, and each run ends at least two rows before the next starts:
      the runs are disjoint, ascending and maximal. */
  predicate Separated(runs: seq<Run>) {
    (forall j :: 0 <= j < |runs| ==> runs[j].start <= runs[j].end) &&
    (forall i, j :: 0 <= i < j < |runs| ==> runs[i].end + 1 < runs[j].start)
  }

  /** The run holds x. */
  predicate Holds(r: Run, x: int) {
    r.start <= x <= r.end
  }

  /** Some run holds x. */
  predicate Covers(runs: seq<Run>, x: int)
    decreases |runs|
  {
    runs != [] && (Holds(runs[|runs| - 1], x) || Covers(runs[..|runs| - 1], x))
  }

  lemma CoversAppend(runs: seq<Run>, r: Run, x: int)
    ensures Covers(runs + [r], x) <==> Holds(r, x) || Covers(runs, x)
  {
    assert (runs + [r])[..|runs|] == runs;
  }

  /** Separated runs hold nothing past the last run's end. */
  lemma {:induction false} CoversBelowEnd(runs: seq<Run>, x: int)
    requires Separated(runs) && Covers(runs, x)
    ensures x <= runs[|runs| - 1].end
    decreases |runs|
  {
    var n := |runs| - 1;
    if !Holds(runs[n], x) {
      var rest := runs[..n];
      assert Separated(rest);
      CoversBelowEnd(rest, x);
      assert rest[|rest| - 1] == runs[n - 1];
    }
  }

  /** The runs are separated, start and end at rows, hold exactly the rows, and the last
      run ends at the last row. */
  ghost predicate Shape(rows: seq<int>, runs: seq<Run>) {
    Separated(runs) &&
    (forall j :: 0 <= j < |runs| ==> runs[j].start in rows && runs[j].end in rows) &&
    (forall x :: x in rows <==> Covers(runs, x)) &&
    (rows == [] <==> runs == []) &&
    (rows != [] ==> runs[|runs| - 1].end == rows[|rows| - 1])
  }

  /** A row right after the last run extends that run. */
  lemma MergeShape(rows: seq<int>, runs: seq<Run>, idx: int)
    requires Shape(rows, runs) && runs != [] && idx == runs[|runs| - 1].end + 1
    ensures Shape(rows + [idx], Step(runs, idx))
  {
    var n := |runs| - 1;
    var grown := Step(runs, idx);
    assert grown == runs[..n] + [Run(runs[n].start, idx)];
    assert runs == runs[..n] + [runs[n]];
    forall x ensures x in rows + [idx] <==> Covers(grown, x) {
      CoversAppend(runs[..n], Run(runs[n].start, idx), x);
      CoversAppend(runs[..n], runs[n], x);
    }
  }

  /** A row further on starts a run of its own. */
  lemma PushShape(rows: seq<int>, runs: seq<Run>, idx: int)
    requires Shape(rows, runs) && (forall x :: x in rows ==> x < idx)
    requires runs != [] ==> idx != runs[|runs| - 1].end + 1
    ensures Shape(rows + [idx], Step(runs, idx))
  {
    var grown := Step(runs, idx);
    if runs != [] {
      assert runs[|runs| - 1].end in rows;
    }
    assert grown == runs + [Run(idx, idx)];
    forall x ensures x in rows + [idx] <==> Covers(grown, x) {
      CoversAppend(runs, Run(idx, idx), x);
    }
  }

  /** For strictly ascending rows, the runs recorded have that shape. */
  lemma {:induction false} RunsOfShape(rows: seq<int>)
    requires Ascending(rows)
    ensures Shape(rows, RunsOf(rows))
  {
    if rows != [] {
      var init := rows[..|rows| - 1];
      var idx := rows[|rows| - 1];
      assert rows == init + [idx];
      RunsOfShape(init);
      var runs := RunsOf(init);
      assert forall x :: x in init ==> x < idx;
      if runs != [] && idx - runs[|runs| - 1].end == 1 {
        MergeShape(init, runs, idx);
      } else {
        PushShape(init, runs, idx);
      }
    }
  }

  /** The handler's first loop: over the sorted indexes, skipping invalid ones, the runs
      recorded, with the run still open at the end recorded last. */
  method GroupRuns(midxs: seq<ModelIndex>) returns (runs: seq<Run>)
    ensures runs == RunsOf(ValidRows(midxs))
  {
    runs := [];
    var start: Option<int> := None;
    var end := 0;
    var i := 0;
    while i < |midxs|
      invariant 0 <= i <= |midxs|
      invariant start.None? ==> runs == [] && RunsOf(ValidRows(midxs[..i])) == []
      invariant start.Some? ==> RunsOf(ValidRows(midxs[..i])) == runs + [Run(start.value, end)]
    {
      GroupStep(midxs, i);
      if midxs[i].valid {
        var idx := midxs[i].row;
        if start.None? {
          start := Some(idx);
          end := idx;
        } else if idx - end == 1 {
          assert (runs + [Run(start.value, end)])[..|runs|] == runs;
          end := idx;
        } else {
          runs := runs + [Run(start.value, end)];
          start := Some(idx);
          end := idx;
        }
      }
      i := i + 1;
    }
    if start.Some? {
      runs := runs + [Run(start.value, end)];
    }
    assert midxs[..i] == midxs;
  }

  /** One more index: a valid one adds its row to the rows, and the loop's step to the runs. */
  lemma GroupStep(midxs: seq<ModelIndex>, i: nat)
    requires i < |midxs|
    ensures midxs[i].valid ==>
              RunsOf(ValidRows(midxs[..i + 1])) == Step(RunsOf(ValidRows(midxs[..i])), midxs[i].row)
    ensures !midxs[i].valid ==> ValidRows(midxs[..i + 1]) == ValidRows(midxs[..i])
  {
    assert midxs[..i + 1][..i] == midxs[..i];
    var rows := ValidRows(midxs[..i]);
    if midxs[i].valid {
      assert ValidRows(midxs[..i + 1]) == rows + [midxs[i].row];
      assert (rows + [midxs[i].row])[..|rows|] == rows;
    }
  }

  /** One removeRows call per run, the last run first. */
  function CallsFor(runs: seq<Run>): seq<RemoveCall> {
    if runs == [] then []
    else
      var last := runs[|runs| - 1];
      [RemoveRows(last.start, last.end - last.start + 1)] + CallsFor(runs[..|runs| - 1])
  }

  /** on_action_triggered: nothing without a model or a selection model; otherwise the
      selected indexes sorted by row, grouped into runs, and the runs removed in reverse. */
  method DeleteSelection(hasModel: bool, hasSelectionModel: bool, selected: seq<ModelIndex>) returns (calls: seq<RemoveCall>)
    ensures !hasModel || !hasSelectionModel ==> calls == []
    ensures hasModel && hasSelectionModel ==> calls == CallsFor(RunsOf(ValidRows(Sorted(selected, Row, false))))
  {
    calls := [];
    if !hasModel || !hasSelectionModel {
      return;
    }
    var midxs := Sorted(selected, Row, false);
    var runs := GroupRuns(midxs);
    calls := RemoveInReverse(runs);
  }

  /** The handler's second loop: for run in reversed(runs), removeRows(start, end - start + 1). */
  method RemoveInReverse(runs: seq<Run>) returns (calls: seq<RemoveCall>)
    ensures calls == CallsFor(runs)
  {
    calls := [];
    var k := |runs|;
    assert runs[..k] == runs;
    while k > 0
      invariant 0 <= k <= |runs|
      invariant calls + CallsFor(runs[..k]) == CallsFor(runs)
    {
      var run := runs[k - 1];
      assert runs[..k][..k - 1] == runs[..k - 1];
      assert (calls + [RemoveRows(run.start, run.end - run.start + 1)]) + CallsFor(runs[..k - 1]) ==
             calls + CallsFor(runs[..k]);
      calls := calls + [RemoveRows(run.start, run.end - run.start + 1)];
      k := k - 1;
    }
    assert runs[..0] == [];
  }

  // ---------------------------------------------------------------------------------------
  // What the calls do to the rows

  /** removeRows(row, count) on a model over a list: del list[row:row + count]. */
  function Cut<E>(l: seq<E>, c: RemoveCall): seq<E> {
    PyList.DelSlice(l, Span(c.row, c.row + c.count)).value
  }

  /** The calls, in order. */
  function ApplyCalls<E>(l: seq<E>, calls: seq<RemoveCall>): seq<E>
    decreases |calls|
  {
    if calls == [] then l else ApplyCalls(Cut(l, calls[0]), calls[1..])
  }

  /** Removing the run s .. e of rows within the list. */
  lemma CutRun<E>(l: seq<E>, s: int, e: int)
    requires 0 <= s <= e < |l|
    ensures Cut(l, RemoveRows(s, e - s + 1)) == l[..s] + l[e + 1..]
  {
    WithoutRun(l, s, e + 1);
  }

  /** Deleting positions none of which is from m on leaves the elements from m on. */
  lemma {:induction false} WithoutPrefix<E>(l: seq<E>, idxs: seq<int>, m: int)
    requires 0 <= m <= |l|
    requires forall i :: m <= i < |l| ==> i !in idxs
    ensures Without(l, idxs) == Without(l[..m], idxs) + l[m..]
    decreases |l|
  {
    if |l| > m {
      var init := l[..|l| - 1];
      WithoutPrefix(init, idxs, m);
      assert init[..m] == l[..m];
      assert init[m..] + [l[|l| - 1]] == l[m..];
    } else {
      assert l[..m] == l;
    }
  }

  /** Deleting every position from m on, and others, deletes the elements from m on. */
  lemma {:induction false} WithoutSuffixAll<E>(l: seq<E>, idxs: seq<int>, m: int)
    requires 0 <= m <= |l|
    requires forall i :: m <= i < |l| ==> i in idxs
    ensures Without(l, idxs) == Without(l[..m], idxs)
    decreases |l|
  {
    if |l| > m {
      var init := l[..|l| - 1];
      WithoutSuffixAll(init, idxs, m);
      assert init[..m] == l[..m];
    } else {
      assert l[..m] == l;
    }
  }

  /** The positions below s. */
  function Below(idxs: seq<int>, s: int): (r: seq<int>)
    ensures forall i :: i in r <==> i in idxs && i < s
  {
    if idxs == [] then []
    else (if idxs[0] < s then [idxs[0]] else []) + Below(idxs[1..], s)
  }

  /** Below the last run's start, the other runs hold what all runs hold; from it on, they
      hold nothing. */
  lemma CoversRest(runs: seq<Run>, i: int)
    requires Separated(runs) && runs != []
    ensures i < runs[|runs| - 1].start ==> (Covers(runs, i) <==> Covers(runs[..|runs| - 1], i))
    ensures i >= runs[|runs| - 1].start ==> !Covers(runs[..|runs| - 1], i)
  {
    var n := |runs| - 1;
    var rest := runs[..n];
    assert Separated(rest);
    if Covers(rest, i) {
      CoversBelowEnd(rest, i);
      assert rest[|rest| - 1] == runs[n - 1];
    }
  }

  /** Past the last run's end, no run holds a row; within it, every row is held. */
  lemma CoversLast(runs: seq<Run>, i: int)
    requires Separated(runs) && runs != []
    ensures i > runs[|runs| - 1].end ==> !Covers(runs, i)
    ensures Holds(runs[|runs| - 1], i) ==> Covers(runs, i)
  {
    if Covers(runs, i) {
      CoversBelowEnd(runs, i);
    }
  }

  /** Within the list, the positions of the last run s .. e are deleted, and none after it. */
  lemma LastRunMembers<E>(l: seq<E>, runs: seq<Run>, idxs: seq<int>, s: int, e: int)
    requires Separated(runs) && runs != [] && runs[|runs| - 1] == Run(s, e)
    requires 0 <= s && e < |l|
    requires forall i :: 0 <= i < |l| ==> (i in idxs <==> Covers(runs, i))
    ensures forall i :: e + 1 <= i < |l| ==> i !in idxs
    ensures forall i :: s <= i < e + 1 ==> i in idxs
  {
    forall i | e + 1 <= i < |l| ensures i !in idxs {
      CoversLast(runs, i);
    }
    forall i | s <= i < e + 1 ensures i in idxs {
      assert Holds(runs[|runs| - 1], i);
      CoversLast(runs, i);
    }
  }

  /** Deleting positions that include s .. e and none after e: the positions before s go,
      s .. e go, and everything after e stays. */
  lemma WithoutLastRun<E>(l: seq<E>, idxs: seq<int>, s: int, e: int)
    requires 0 <= s <= e < |l|
    requires forall i :: e + 1 <= i < |l| ==> i !in idxs
    requires forall i :: s <= i < e + 1 ==> i in idxs
    ensures Without(l, idxs) == Without(l[..s], Below(idxs, s)) + l[e + 1..]
  {
    calc {
      Without(l, idxs);
      { WithoutPrefix(l, idxs, e + 1); }
      Without(l[..e + 1], idxs) + l[e + 1..];
      { WithoutSuffixAll(l[..e + 1], idxs, s);
        assert l[..e + 1][..s] == l[..s]; }
      Without(l[..s], idxs) + l[e + 1..];
      { WithoutSame(l[..s], idxs, Below(idxs, s)); }
      Without(l[..s], Below(idxs, s)) + l[e + 1..];
    }
  }

  /** Removing separated runs within the list, the last first, deletes exactly the rows the
      runs hold. */
  lemma {:induction false} RunsDeleted<E>(l: seq<E>, runs: seq<Run>, idxs: seq<int>)
    requires Separated(runs)
    requires forall j :: 0 <= j < |runs| ==> 0 <= runs[j].start && runs[j].end < |l|
    requires forall i :: 0 <= i < |l| ==> (i in idxs <==> Covers(runs, i))
    ensures ApplyCalls(l, CallsFor(runs)) == Without(l, idxs)
    decreases |runs|
  {
    if runs == [] {
      WithoutSame(l, idxs, []);
      WithoutNothing(l);
    } else {
      var n := |runs| - 1;
      var s := runs[n].start;
      var e := runs[n].end;
      var cut := l[..s] + l[e + 1..];
      var below := Below(idxs, s);
      FirstCut(l, runs, s, e);
      RestBefore(runs, runs[..n], s);
      RestHolds(runs, runs[..n], s, idxs, |cut|);
      RunsDeleted(cut, runs[..n], below);
      WithoutPrefix(cut, below, s);
      calc {
        ApplyCalls(l, CallsFor(runs));
        ApplyCalls(cut, CallsFor(runs[..n]));
        Without(cut, below);
        Without(cut[..s], below) + cut[s..];
        { CutParts(l, s, e); }
        Without(l[..s], below) + l[e + 1..];
        { LastRunMembers(l, runs, idxs, s, e);
          WithoutLastRun(l, idxs, s, e); }
        Without(l, idxs);
      }
    }
  }

  lemma CutParts<E>(l: seq<E>, s: int, e: int)
    requires 0 <= s <= e < |l|
    ensures (l[..s] + l[e + 1..])[..s] == l[..s] && (l[..s] + l[e + 1..])[s..] == l[e + 1..]
  {
  }

  /** The first call removes the last run s .. e: the other calls then act on the list with
      s .. e cut out. */
  lemma FirstCut<E>(l: seq<E>, runs: seq<Run>, s: int, e: int)
    requires runs != [] && runs[|runs| - 1] == Run(s, e)
    requires 0 <= s <= e < |l|
    ensures ApplyCalls(l, CallsFor(runs)) == ApplyCalls(l[..s] + l[e + 1..], CallsFor(runs[..|runs| - 1]))
  {
    assert CallsFor(runs) == [RemoveRows(s, e - s + 1)] + CallsFor(runs[..|runs| - 1]);
    CutRun(l, s, e);
  }

  /** The runs before the last are separated and end before the last run starts. */
  lemma RestBefore(runs: seq<Run>, rest: seq<Run>, s: int)
    requires Separated(runs) && runs != []
    requires rest == runs[..|runs| - 1] && s == runs[|runs| - 1].start
    ensures Separated(rest)
    ensures forall j :: 0 <= j < |rest| ==> rest[j].end < s
  {
    forall j | 0 <= j < |rest| ensures rest[j].end < s {
      assert runs[j].end + 1 < runs[|runs| - 1].start;
    }
  }

  /** Within the first m positions, the runs before the last hold exactly the deleted
      positions below the last run's start. */
  lemma RestHolds(runs: seq<Run>, rest: seq<Run>, s: int, idxs: seq<int>, m: int)
    requires Separated(runs) && runs != []
    requires rest == runs[..|runs| - 1] && s == runs[|runs| - 1].start
    requires forall i :: 0 <= i < m ==> (i in idxs <==> Covers(runs, i))
    ensures forall i :: 0 <= i < m ==> (i in Below(idxs, s) <==> Covers(rest, i))
  {
    forall i | 0 <= i < m ensures i in Below(idxs, s) <==> Covers(rest, i) {
      CoversRest(runs, i);
    }
  }

  /** The valid rows of indexes sorted by row, no valid index given twice, ascend strictly. */
  lemma {:induction false} SortedRowsAscend(s: seq<ModelIndex>)
    requires SortedBy(s, Row, false)
    requires forall r :: multiset(s)[ModelIndex(true, r)] <= 1
    ensures Ascending(ValidRows(s))
  {
    if s != [] {
      var init := s[..|s| - 1];
      var last := s[|s| - 1];
      assert s == init + [last];
      assert multiset(s) == multiset(init) + multiset{last};
      assert SortedBy(init, Row, false);
      SortedRowsAscend(init);
      if last.valid {
        BelowLast(s, init, last);
        AscendingPush(ValidRows(init), last.row);
        assert ValidRows(s) == ValidRows(init) + [last.row];
      } else {
        assert ValidRows(s) == ValidRows(init);
      }
    }
  }

  /** In indexes sorted by row, no valid index given twice, a valid last index has a row
      above every earlier valid row. */
  lemma BelowLast(s: seq<ModelIndex>, init: seq<ModelIndex>, last: ModelIndex)
    requires SortedBy(s, Row, false) && s == init + [last] && last.valid
    requires forall r :: multiset(s)[ModelIndex(true, r)] <= 1
    ensures forall x :: x in ValidRows(init) ==> x < last.row
  {
    assert multiset(s) == multiset(init) + multiset{last};
    forall x | x in ValidRows(init) ensures x < last.row {
      ValidRowsMembers(init, x);
      var k :| 0 <= k < |init| && init[k] == ModelIndex(true, x);
      assert s[k] == init[k];
      assert !(Row(s[|s| - 1]) < Row(s[k]));
      assert multiset(init)[ModelIndex(true, x)] >= 1;
      assert multiset(s)[ModelIndex(true, x)] == multiset(init)[ModelIndex(true, x)] + multiset{last}[ModelIndex(true, x)];
    }
  }

  /** A row above every row of ascending rows keeps them ascending when appended. */
  lemma AscendingPush(rows: seq<int>, x: int)
    requires Ascending(rows) && forall y :: y in rows ==> y < x
    ensures Ascending(rows + [x])
  {
    forall i, j | 0 <= i < j < |rows| + 1 ensures (rows + [x])[i] < (rows + [x])[j] {
      if j == |rows| {
        assert rows[i] in rows;
      }
    }
  }

  /** Sorting keeps the valid rows selected: the same rows, each within the list. */
  lemma SortedRowsSame<E>(l: seq<E>, selected: seq<ModelIndex>, sorted: seq<ModelIndex>)
    requires multiset(sorted) == multiset(selected)
    requires forall k :: 0 <= k < |selected| && selected[k].valid ==> 0 <= selected[k].row < |l|
    ensures forall x :: x in ValidRows(sorted) ==> 0 <= x < |l|
    ensures forall x :: x in ValidRows(sorted) <==> x in ValidRows(selected)
  {
    forall x ensures x in ValidRows(sorted) <==> x in ValidRows(selected) {
      ValidRowsMembers(sorted, x);
      ValidRowsMembers(selected, x);
      assert ModelIndex(true, x) in sorted <==> ModelIndex(true, x) in multiset(selected);
    }
    forall x | x in ValidRows(selected) ensures 0 <= x < |l| {
      ValidRowsMembers(selected, x);
      var k :| 0 <= k < |selected| && selected[k] == ModelIndex(true, x);
    }
  }

  /** With no row selected twice, the runs the handler records for the sorted selection are
      separated (each non-empty, ascending, and at least one row apart from the next), start
      and end at selected rows, and hold exactly the rows of the valid selected indexes. */
  lemma SelectionRuns(selected: seq<ModelIndex>)
    requires forall r :: multiset(selected)[ModelIndex(true, r)] <= 1
    ensures var rows := ValidRows(Sorted(selected, Row, false));
            Shape(rows, RunsOf(rows)) && forall x :: x in rows <==> x in ValidRows(selected)
  {
    var sorted := Sorted(selected, Row, false);
    assert SortedBy(sorted, Row, false) && multiset(sorted) == multiset(selected) by {
      SortedCorrect(selected, Row, false);
    }
    var rows := ValidRows(sorted);
    assert Ascending(rows) by {
      SortedRowsAscend(sorted);
    }
    assert Shape(rows, RunsOf(rows)) by {
      RunsOfShape(rows);
    }
    forall x ensures x in rows <==> x in ValidRows(selected) {
      ValidRowsMembers(sorted, x);
      ValidRowsMembers(selected, x);
      assert ModelIndex(true, x) in sorted <==> ModelIndex(true, x) in multiset(selected);
    }
  }

  /** With no row selected twice and every selected row within the list, the handler's
      calls delete exactly the selected rows. */
  lemma SelectionDeleted<E>(l: seq<E>, selected: seq<ModelIndex>)
    requires forall r :: multiset(selected)[ModelIndex(true, r)] <= 1
    requires forall k :: 0 <= k < |selected| && selected[k].valid ==> 0 <= selected[k].row < |l|
    ensures ApplyCalls(l, CallsFor(RunsOf(ValidRows(Sorted(selected, Row, false))))) == Without(l, ValidRows(selected))
  {
    var sorted := Sorted(selected, Row, false);
    assert multiset(sorted) == multiset(selected) by {
      SortedCorrect(selected, Row, false);
    }
    var rows := ValidRows(sorted);
    SelectionRuns(selected);
    SortedRowsSame(l, selected, sorted);
    RunsDeleted(l, RunsOf(rows), rows);
    WithoutSame(l, rows, ValidRows(selected));
  }
}
