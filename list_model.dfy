/** ListModel: a one-column Qt model over a SignalingList. Without a property name a row
    shows the element itself; with one it shows that attribute of the element, and the model
    then keeps per-element instance counts so that each element's `<name>_changed` signal is
    connected once. Signal delivery is explicit: the model's slots are methods called with
    the signal's arguments, and attribute writes are logged rather than performed. */
module ListModels {
  import opened Wrappers
  import opened PyList
  import opened SignalingLists
  import opened TableModels

  class ListModel<E(==)> {
    /** property_name; None shows the elements themselves. */
    const propertyName: Option<string>
    /** `_instance_counts`, with the element signal connections; it stays empty, and no
        connection is made, without a property name. */
    const counter: InstanceCounter<E>
    /** The list shown, if any. */
    var list: Option<SignalingList<E>>
    /** Every dataChanged emitted, in order. */
    var changes: seq<DataChange>
    /** Every attribute write set_row performs, in order. */
    var writes: seq<AttributeWrite<E>>

    /** The list's contents; none without a list. */
    function Items(): seq<E>
      reads this, Shown()
    {
      if list.Some? then list.value.items else []
    }

    function Shown(): set<object>
      reads this
    {
      if list.Some? then {list.value} else {}
    }

    /** What the counts are kept for: the contents with a property name, nothing without. */
    ghost function Counted(l: seq<E>): multiset<E> {
      if propertyName.Some? then multiset(l) else multiset{}
    }

    /** The counts and connections are those of the counted contents. */
    ghost predicate Tracks()
      reads this, counter, Shown()
    {
      counter.Valid() && counter.attached == Counted(Items())
    }

    /** What a row shows for the element x: x itself, or its attribute, None where it has
        none (getattr with a default). */
    function RowValue(x: E, attr: (E, string) -> Option<E>): Option<E> {
      if propertyName.None? then Some(x) else attr(x, propertyName.value)
    }

    constructor Init(propertyName: Option<string>)
      ensures this.propertyName == propertyName && list.None? && changes == [] && writes == []
      ensures fresh(counter) && Tracks() && counter.counts == map[] && counter.log == []
    {
      this.propertyName := propertyName;
      list := None;
      changes := [];
      writes := [];
      counter := new InstanceCounter();
    }

    /** ListModel(property_name, signaling_list). */
    static method New(propertyName: Option<string>, v: Option<SignalingList<E>>) returns (m: ListModel<E>)
      ensures fresh(m) && fresh(m.counter) && m.propertyName == propertyName && m.list == v
      ensures m.Tracks() && m.counter.counts == CountsOf(m.Counted(m.Items()))
      ensures m.changes == [] && m.writes == []
    {
      m := new ListModel.Init(propertyName);
      m.SetList(v);
    }

    /** rowCount: no rows without a list, otherwise one per element. */
    function RowCount(): (r: nat)
      reads this, Shown()
      ensures list.None? ==> r == 0
      ensures list.Some? ==> r == |list.value.items|
    {
      if list.None? then 0 else |list.value.items|
    }

    /** columnCount: always the one column. */
    function ColumnCount(): (r: nat)
      ensures r == 1
    {
      1
    }

    /** get_row(row): the row's element, or its attribute; negative rows count from the end,
        a row out of range raises IndexError, and no list raises. */
    function GetRow(row: int, attr: (E, string) -> Option<E>): (r: Result<Option<E>, ModelError>)
      reads this, Shown()
      ensures list.None? ==> r == Failure(NoList)
      ensures list.Some? ==> (r.Success? <==> -|list.value.items| <= row < |list.value.items|)
      ensures list.Some? && r.Failure? ==> r.error == Raised(IndexError)
      ensures r.Success? && 0 <= row ==> r.value == RowValue(list.value.items[row], attr)
      ensures r.Success? && row < 0 ==> r.value == RowValue(list.value.items[row + |list.value.items|], attr)
    {
      if list.None? then Failure(NoList)
      else
        var k := PyIndex(|list.value.items|, row);
        if k.None? then Failure(Raised(IndexError)) else Success(RowValue(list.value.items[k.value], attr))
    }

    /** set_row(row, v): without a property name the list's element is replaced, and the
        list's replaced signal reaches `_on_replaced`, which marks the row; with one, v is
        written to that attribute of the row's element and the list is left alone. */
    method SetRow(row: int, v: E) returns (err: Option<ModelError>)
      requires Tracks()
      modifies this, Shown(), counter
      ensures list == old(list) && Tracks()
      ensures list.None? ==> err == Some(NoList) && changes == old(changes) && writes == old(writes)
      ensures list.Some? && PyIndex(|old(list.value.items)|, row).None? ==>
                err == Some(Raised(IndexError)) && list.value.items == old(list.value.items) &&
                list.value.events == old(list.value.events) && changes == old(changes) && writes == old(writes)
      ensures list.Some? && PyIndex(|old(list.value.items)|, row).Some? ==>
                var k := PyIndex(|old(list.value.items)|, row).value;
                err.None? &&
                (propertyName.None? ==>
                   list.value.items == old(list.value.items)[k := v] && list.value.items[k] == v &&
                   list.value.events == old(list.value.events) + SetIndexSignals(old(list.value.items), k, v) &&
                   changes == old(changes) + [DataChanged(k, 0, k, 0)] && writes == old(writes)) &&
                (propertyName.Some? ==>
                   list.value.items == old(list.value.items) && list.value.events == old(list.value.events) &&
                   changes == old(changes) && writes == old(writes) + [SetAttribute(old(list.value.items)[k], propertyName.value, v)])
      ensures counter.counts == old(counter.counts) && counter.log == old(counter.log)
    {
      if list.None? {
        return Some(NoList);
      }
      var l := list.value;
      var k := PyIndex(|l.items|, row);
      if k.None? {
        return Some(Raised(IndexError));
      }
      if propertyName.Some? {
        writes := writes + [SetAttribute(l.items[k.value], propertyName.value, v)];
        return None;
      }
      var before := l.items;
      var e := l.SetIndex(row, v);
      var signal := Replaced([k.value], [before[k.value]], [v]);
      assert GetAt(before, [k.value]) == [before[k.value]];
      var e2 := OnSignal(before, signal);
      err := None;
    }

    /** removeRows(row, count): deletes the rows row .. row + count - 1 and answers True; a
        slice deletion never raises IndexError, so the False answer is never given. The list's
        signals reach the model's slots, which keep the counts. Without a list the deletion
        raises (a TypeError). */
    method RemoveRows(row: int, count: int) returns (r: Result<bool, ModelError>)
      requires Tracks()
      modifies Shown(), counter
      ensures list.None? ==> r == Failure(NoList)
      ensures list.Some? ==> r == Success(true) && Tracks() &&
                             list.value.items == PyList.DelSlice(old(list.value.items), Span(row, row + count)).value
      ensures propertyName.None? ==> counter.counts == old(counter.counts) && counter.log == old(counter.log)
      ensures list.Some? ==> list.value.events == old(list.value.events) + DelSliceSignals(old(list.value.items), Span(row, row + count))
      ensures list.Some? && propertyName.Some? ==>
                counter.log == old(counter.log) + Disconnects(old(counter.attached), GetSlice(old(list.value.items), Span(row, row + count)).value)
    {
      if list.None? {
        return Failure(NoList);
      }
      var l := list.value;
      var before := l.items;
      var emitted := |l.events|;
      var err := l.DelSlice(Span(row, row + count));
      var evs := l.events[emitted..];
      DelSliceReplays(before, Span(row, row + count));
      assert evs == DelSliceSignals(before, Span(row, row + count));
      if propertyName.Some? {
        TrackDelSlice(counter, before, Span(row, row + count), evs);
      }
      r := Success(true);
    }

    /** The signaling_list setter: a different list (or None) detaches every element of the
        old list, so no counts remain, then attaches every element of the new one; without a
        property name neither happens. */
    method SetList(v: Option<SignalingList<E>>)
      requires Tracks()
      modifies this, counter
      ensures list == v && Tracks()
      ensures v == old(list) || propertyName.None? ==> counter.counts == old(counter.counts) && counter.log == old(counter.log)
      ensures v != old(list) && propertyName.Some? ==>
                counter.log == old(counter.log) + Disconnects(old(counter.attached), old(Items())) +
                               Connects(multiset{}, if v.Some? then v.value.items else [])
      ensures counter.counts == CountsOf(Counted(Items()))
      ensures changes == old(changes) && writes == old(writes)
    {
      if v == list {
        return;
      }
      if propertyName.None? {
        list := v;
        return;
      }
      ghost var log0 := counter.log;
      if list.Some? {
        counter.Detach(list.value.items);
      }
      assert counter.attached == multiset{};
      assert counter.counts == map[];
      ghost var log1 := counter.log;
      list := v;
      if v.Some? {
        counter.Attach(v.value.items);
      }
      assert log1 == log0 + Disconnects(old(counter.attached), old(Items()));
    }

    /** The bookkeeping of the post-change slots: the departed elements detached and the
        arrived ones attached, when there is a property name. */
    method Keep(ghost before: seq<E>, e: Event<E>)
      requires counter.Valid() && counter.attached == Counted(before) && Fits(before, e)
      modifies counter
      ensures counter.Valid() && counter.attached == Counted(Apply(before, e))
      ensures propertyName.None? ==> counter.counts == old(counter.counts) && counter.log == old(counter.log)
      ensures propertyName.Some? ==>
                counter.log == old(counter.log) + Disconnects(old(counter.attached), Departed(e)) +
                               Connects(old(counter.attached) - multiset(Departed(e)), Arrived(e))
    {
      if propertyName.Some? {
        Track(counter, before, e);
      }
    }

    /** The slots for the signal e of the list whose contents were before. A post-change
        slot (`_on_inserted`, `_on_replaced`, `_on_removed`) does the bookkeeping when there is
        a property name, then, for a replacement only, dataChanged from the lowest to the
        highest row replaced; min() of no indexes raises ValueError after the bookkeeping. A
        pre-change slot (`_on_inserting`, `_on_removing`) only tells Qt and changes nothing
        here, except that `_on_removing` computes min() of its indexes first and so raises
        ValueError for none, as clear() of an empty list sends. */
    method OnSignal(ghost before: seq<E>, e: Event<E>) returns (err: Option<ModelError>)
      requires counter.Valid() && counter.attached == Counted(before) && (IsPre(e) || Fits(before, e))
      modifies this, counter
      ensures list == old(list) && writes == old(writes)
      ensures counter.Valid() && counter.attached == Counted(if IsPre(e) then before else Apply(before, e))
      ensures propertyName.None? || IsPre(e) ==> counter.counts == old(counter.counts) && counter.log == old(counter.log)
      ensures propertyName.Some? && !IsPre(e) ==>
                counter.log == old(counter.log) + Disconnects(old(counter.attached), Departed(e)) +
                               Connects(old(counter.attached) - multiset(Departed(e)), Arrived(e))
      ensures err.Some? <==> (e.Replaced? || e.Removing?) && e.idxs == []
      ensures err.Some? ==> err.value == Raised(ValueError)
      ensures changes == old(changes) +
                if e.Replaced? && e.idxs != [] then [DataChanged(SeqMin(e.idxs), 0, SeqMax(e.idxs), 0)] else []
    {
      err := None;
      if IsPre(e) {
        if e.Removing? && e.idxs == [] {
          err := Some(Raised(ValueError));
        }
        return;
      }
      Keep(before, e);
      if e.Replaced? {
        if e.idxs == [] {
          return Some(Raised(ValueError));
        }
        changes := changes + [DataChanged(SeqMin(e.idxs), 0, SeqMax(e.idxs), 0)];
      }
    }

    /** `_on_property_changed(element)`: one dataChanged per row holding the element, in
        ascending row order. An element without a count raises KeyError, and a model without
        a property name keeps no counts at all. */
    method OnPropertyChanged(element: E) returns (err: Option<ModelError>)
      requires Tracks()
      modifies this
      ensures list == old(list) && writes == old(writes)
      ensures propertyName.None? ==> err == Some(NoCounts) && changes == old(changes)
      ensures propertyName.Some? && element !in counter.counts ==> err == Some(MissingKey) && changes == old(changes)
      ensures propertyName.Some? && element in counter.counts ==>
                err.None? && changes == old(changes) + Cells(OccurrencesFrom(Items(), element, 0), 0)
    {
      if propertyName.None? {
        return Some(NoCounts);
      }
      if element !in counter.counts {
        return Some(MissingKey);
      }
      var count := counter.counts[element];
      var rows, ok := ChangedRows(Items(), element, count);
      ChangedRowsAll(Items(), element);
      assert rows == OccurrencesFrom(Items(), element, 0);
      changes := changes + Cells(rows, 0);
      err := None;
    }
  }
}
