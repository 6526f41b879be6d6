/** PropertyTableModel: a Qt table model showing one row per element of a SignalingList
    and one column per property name. It keeps per-element instance counts, so an
    element's `<name>_changed` signals are connected once however often the element occurs,
    and it follows the list's change signals. A change of one property of an element marks
    that element's cell in the property's column, at every row holding the element. Signal
    delivery is explicit here: the model's slots are methods that are called with the
    signal's arguments. */
module PropertyTableModels {
  import opened Wrappers
  import opened PyList
  import opened SignalingLists
  import opened TableModels

  /** Why construction fails: a property name that is not a non-empty string (an
      AssertionError), or a name given twice (ValueError). */
  datatype ConstructError = InvalidName | DuplicateName

  /** property_columns: {pn: idx for idx, pn in enumerate(property_names)}, where a name
      given again takes its later position. */
  function Columns(names: seq<string>): map<string, nat>
    decreases |names|
  {
    if names == [] then map[] else Columns(names[..|names| - 1])[names[|names| - 1] := |names| - 1]
  }

  predicate NoDuplicates<T(==)>(s: seq<T>) {
    forall i, j :: 0 <= i < j < |s| ==> s[i] != s[j]
  }

  function NameSet(names: seq<string>): set<string> {
    set n | n in names
  }

  /** The names give each of them its position as its column, and nothing else. */
  lemma {:induction false} ColumnsOfDistinct(names: seq<string>)
    requires NoDuplicates(names)
    ensures Columns(names).Keys == NameSet(names)
    ensures forall i :: 0 <= i < |names| ==> Columns(names)[names[i]] == i
    decreases |names|
  {
    if names != [] {
      var init := names[..|names| - 1];
      ColumnsOfDistinct(init);
      assert names == init + [names[|names| - 1]];
      assert NameSet(names) == NameSet(init) + {names[|names| - 1]};
      forall i | 0 <= i < |names| - 1
        ensures Columns(names)[names[i]] == i
      {
        assert names[i] == init[i];
      }
    }
  }

  /** len(set(names)) == len(names) holds exactly when no name is given twice. */
  lemma {:induction false} DuplicateCheck(names: seq<string>)
    ensures |NameSet(names)| == |names| <==> NoDuplicates(names)
    ensures |NameSet(names)| <= |names|
    decreases |names|
  {
    if names != [] {
      var init := names[..|names| - 1];
      var last := names[|names| - 1];
      DuplicateCheck(init);
      assert names == init + [last];
      assert NameSet(names) == NameSet(init) + {last};
      if last in init {
        var k :| 0 <= k < |init| && init[k] == last;
        assert names[k] == names[|names| - 1];
      } else {
        assert last !in NameSet(init);
        if NoDuplicates(init) {
          forall i, j | 0 <= i < j < |names|
            ensures names[i] != names[j]
          {
            if j < |names| - 1 {
              assert names[i] == init[i] && names[j] == init[j];
            } else {
              assert names[i] == init[i];
            }
          }
        } else {
          var i, j :| 0 <= i < j < |init| && init[i] == init[j];
          assert names[i] == names[j];
        }
      }
    }
  }

  class PropertyTableModel<E(==)> {
    /** property_names. */
    const names: seq<string>
    /** property_columns. */
    const columns: map<string, nat>
    /** `_instance_counts`, with the element signal connections. */
    const counter: InstanceCounter<E>
    /** The list shown, if any. */
    var list: Option<SignalingList<E>>
    /** Every dataChanged emitted, in order. */
    var changes: seq<DataChange>

    /** The list's contents; none without a list. */
    function Items(): seq<E>
      reads this, Shown()
    {
      if list.Some? then list.value.items else []
    }

    function Shown(): set<object>
      reads this
    {
      if list.Some? then {list.value} else {}
    }

    /** The counts are the instance counts of the list's contents, with exactly those
        elements' signals connected. */
    ghost predicate Tracks()
      reads this, counter, Shown()
    {
      counter.Valid() && counter.attached == multiset(Items())
    }

    constructor Init(names: seq<string>)
      ensures this.names == names && columns == Columns(names)
      ensures list.None? && changes == [] && fresh(counter)
      ensures Tracks() && counter.counts == map[] && counter.log == []
    {
      this.names := names;
      columns := Columns(names);
      list := None;
      changes := [];
      counter := new InstanceCounter();
    }

    /** PropertyTableModel(property_names, signaling_list): every name must be a non-empty
        string and no name may be given twice; the model then takes the list. */
    static method New(names: seq<string>, v: Option<SignalingList<E>>) returns (r: Result<PropertyTableModel<E>, ConstructError>)
      ensures r == Failure(InvalidName) <==> exists i :: 0 <= i < |names| && names[i] == []
      ensures r == Failure(DuplicateName) <==> (forall i :: 0 <= i < |names| ==> names[i] != []) && !NoDuplicates(names)
      ensures r.Success? ==> fresh(r.value) && fresh(r.value.counter) && r.value.names == names && r.value.list == v
      ensures r.Success? ==> r.value.Tracks() && r.value.counter.counts == CountsOf(multiset(r.value.Items()))
      ensures r.Success? ==> r.value.columns.Keys == NameSet(names) && forall i :: 0 <= i < |names| ==> r.value.columns[names[i]] == i
    {
      if exists i :: 0 <= i < |names| && names[i] == [] {
        return Failure(InvalidName);
      }
      DuplicateCheck(names);
      if |NameSet(names)| != |names| {
        return Failure(DuplicateName);
      }
      ColumnsOfDistinct(names);
      var m := new PropertyTableModel.Init(names);
      m.SetList(v);
      r := Success(m);
    }

    /** rowCount: no rows without a list, otherwise one per element. */
    function RowCount(): (r: nat)
      reads this, Shown()
      ensures list.None? ==> r == 0
      ensures list.Some? ==> r == |list.value.items|
    {
      if list.None? then 0 else |list.value.items|
    }

    /** columnCount: one column per property name. */
    function ColumnCount(): (r: nat)
      ensures r == |names|
    {
      |names|
    }

    /** The signaling_list setter: a different list (or None) detaches every element of the
        old list, so no counts remain, then attaches every element of the new one. */
    method SetList(v: Option<SignalingList<E>>)
      requires Tracks()
      modifies this, counter
      ensures list == v && Tracks()
      ensures v == old(list) ==> counter.counts == old(counter.counts) && counter.log == old(counter.log)
      ensures v != old(list) ==>
                counter.log == old(counter.log) + Disconnects(old(counter.attached), old(Items())) +
                               Connects(multiset{}, if v.Some? then v.value.items else [])
      ensures counter.counts == CountsOf(multiset(Items()))
      ensures changes == old(changes)
    {
      if v == list {
        return;
      }
      ghost var log0 := counter.log;
      if list.Some? {
        counter.Detach(list.value.items);
      }
      assert counter.attached == multiset{};
      assert counter.counts == map[];
      ghost var log1 := counter.log;
      list := v;
      if v.Some? {
        counter.Attach(v.value.items);
      }
      assert log1 == log0 + Disconnects(old(counter.attached), old(Items()));
    }

    /** The slots for the signal e of the list whose contents were before. A post-change
        slot (`_on_inserted`, `_on_replaced`, `_on_removed`) does the bookkeeping, then
        dataChanged over the rows concerned in every column; min() of no indexes raises
        ValueError after the bookkeeping. A pre-change slot (`_on_inserting`, `_on_removing`)
        only tells Qt and changes nothing here, except that `_on_removing` computes min() of
        its indexes first and so raises ValueError for none, as clear() of an empty list sends. */
    method OnSignal(ghost before: seq<E>, e: Event<E>) returns (err: Option<ModelError>)
      requires counter.Valid() && counter.attached == multiset(before) && (IsPre(e) || Fits(before, e))
      modifies this, counter
      ensures counter.Valid() && counter.attached == multiset(if IsPre(e) then before else Apply(before, e))
      ensures IsPre(e) ==> counter.counts == old(counter.counts) && counter.log == old(counter.log)
      ensures err.Some? <==> (e.Replaced? || e.Removing?) && e.idxs == []
      ensures err.Some? ==> err.value == Raised(ValueError)
      ensures changes == old(changes) +
                if e.Inserted? then [DataChanged(e.index, 0, e.index + |e.objs| - 1, |names| - 1)]
                else if e.Replaced? && e.idxs != [] then [DataChanged(SeqMin(e.idxs), 0, SeqMax(e.idxs), |names| - 1)]
                else []
    {
      err := None;
      if IsPre(e) {
        if e.Removing? && e.idxs == [] {
          err := Some(Raised(ValueError));
        }
        return;
      }
      Track(counter, before, e);
      if e.Inserted? {
        changes := changes + [DataChanged(e.index, 0, e.index + |e.objs| - 1, |names| - 1)];
      } else if e.Replaced? {
        if e.idxs == [] {
          return Some(Raised(ValueError));
        }
        changes := changes + [DataChanged(SeqMin(e.idxs), 0, SeqMax(e.idxs), |names| - 1)];
      }
    }

    /** `_on_property_changed(element, property_name)`: one dataChanged per row holding the
        element, in that property's column, in ascending row order. A name without a column
        or an element without a count raises KeyError, and no list an AttributeError. */
    method OnPropertyChanged(element: E, name: string) returns (err: Option<ModelError>)
      requires Tracks()
      modifies this
      ensures list == old(list)
      ensures name !in columns || element !in counter.counts ==> err == Some(MissingKey) && changes == old(changes)
      ensures name in columns && element in counter.counts ==>
                err.None? &&
                changes == old(changes) + Cells(OccurrencesFrom(Items(), element, 0), columns[name])
    {
      if name !in columns || element !in counter.counts {
        return Some(MissingKey);
      }
      var column := columns[name];
      var count := counter.counts[element];
      var rows, ok := ChangedRows(Items(), element, count);
      ChangedRowsAll(Items(), element);
      assert rows == OccurrencesFrom(Items(), element, 0);
      changes := changes + Cells(rows, column);
      err := None;
    }

    /** removeRows(row, count): deletes the rows row .. row + count - 1 and answers True; a
        slice deletion never raises IndexError, so the False answer is never given. The list's
        signals reach the model's slots, which keep the counts. Without a list the deletion
        raises (a TypeError). */
    method RemoveRows(row: int, count: int) returns (r: Result<bool, ModelError>)
      requires Tracks()
      modifies Shown(), counter
      ensures list.None? ==> r == Failure(NoList)
      ensures list.Some? ==> r == Success(true) && Tracks() &&
                             list.value.items == PyList.DelSlice(old(list.value.items), Span(row, row + count)).value
      ensures list.Some? ==> list.value.events == old(list.value.events) + DelSliceSignals(old(list.value.items), Span(row, row + count))
      ensures list.Some? ==> counter.log == old(counter.log) + Disconnects(old(counter.attached), GetSlice(old(list.value.items), Span(row, row + count)).value)
    {
      if list.None? {
        return Failure(NoList);
      }
      var l := list.value;
      var before := l.items;
      var emitted := |l.events|;
      var err := l.DelSlice(Span(row, row + count));
      var evs := l.events[emitted..];
      assert evs == DelSliceSignals(before, Span(row, row + count));
      TrackDelSlice(counter, before, Span(row, row + count), evs);
      r := Success(true);
    }
  }
}
