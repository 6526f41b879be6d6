/** What the Qt models over a SignalingList share: per-element instance counts, with an
    element's change signals connected while it has instances; the rows a property change
    of an element marks as changed; and the bookkeeping a model does when the list reports a
    change. The signal connections made and broken are an appended log. */
module TableModels {
  import opened Wrappers
  import opened PyList
  import opened SignalingLists

  /** What a model operation raises: the model has no list (an attribute lookup on None),
      a dictionary has no such key (KeyError), the model keeps no instance counts (an
      attribute lookup of `_instance_counts` that fails), or the list operation raised. */
  datatype ModelError = NoList | MissingKey | NoCounts | Raised(error: PyError)

  /** A setattr(target, name, value) the model performs. */
  datatype AttributeWrite<E> = SetAttribute(target: E, name: string, value: E)

  /** A dataChanged emission: the top-left and the bottom-right cell. */
  datatype DataChange = DataChanged(top: int, left: int, bottom: int, right: int)

  /** The dataChanged emissions for single cells at rows in column. */
  function Cells(rows: seq<nat>, column: nat): (r: seq<DataChange>)
    ensures |r| == |rows|
    ensures forall k :: 0 <= k < |rows| ==> r[k] == DataChanged(rows[k], column, rows[k], column)
  {
    seq(|rows|, k requires 0 <= k < |rows| => DataChanged(rows[k], column, rows[k], column))
  }

  // ---------------------------------------------------------------------------------------
  // Instance counts

  /** The instance counts for a multiset of attached elements: each attached element with
      its number of instances, and no key for an element without any. */
  function CountsOf<E(==)>(m: multiset<E>): map<E, nat> {
    map e | e in m :: m[e]
  }

  /** One more instance of e: its count goes up by one, from 0 when it had none. */
  lemma CountsAdd<E>(m: multiset<E>, e: E)
    ensures CountsOf(m + multiset{e}) == CountsOf(m)[e := m[e] + 1]
  {
    var a := CountsOf(m + multiset{e});
    var b := CountsOf(m)[e := m[e] + 1];
    assert forall x :: x in a <==> x in b;
    assert forall x | x in a :: a[x] == b[x];
  }

  /** One instance of e fewer: its key goes when that was the last one. */
  lemma CountsRemove<E>(m: multiset<E>, e: E)
    requires e in m
    ensures CountsOf(m - multiset{e}) == if m[e] == 1 then CountsOf(m) - {e} else CountsOf(m)[e := m[e] - 1]
  {
    var a := CountsOf(m - multiset{e});
    var b := if m[e] == 1 then CountsOf(m) - {e} else CountsOf(m)[e := m[e] - 1];
    assert forall x :: x in a <==> x in b;
    assert forall x | x in a :: a[x] == b[x];
  }

  function Elements<E>(m: multiset<E>): set<E> {
    set e | e in m
  }

  lemma ElementsAdd<E>(m: multiset<E>, e: E)
    ensures Elements(m + multiset{e}) == Elements(m) + {e}
  {
    assert forall x :: x in Elements(m + multiset{e}) <==> x in Elements(m) + {e};
  }

  lemma ElementsRemove<E>(m: multiset<E>, e: E)
    requires e in m
    ensures Elements(m - multiset{e}) == if m[e] == 1 then Elements(m) - {e} else Elements(m)
  {
    assert forall x :: x in Elements(m - multiset{e}) <==> x in (if m[e] == 1 then Elements(m) - {e} else Elements(m));
  }

  // ---------------------------------------------------------------------------------------
  // Signal connections

  /** Connecting or disconnecting an element's change signals to the model's slots. */
  datatype Connection<E> = Connect(element: E) | Disconnect(element: E)

  /** The elements whose signals are connected after the log. */
  function Live<E(==)>(log: seq<Connection<E>>): set<E>
    decreases |log|
  {
    if log == [] then {}
    else
      var c := log[|log| - 1];
      var before := Live(log[..|log| - 1]);
      if c.Connect? then before + {c.element} else before - {c.element}
  }

  lemma LiveAppend<E>(log: seq<Connection<E>>, c: Connection<E>)
    ensures Live(log + [c]) == if c.Connect? then Live(log) + {c.element} else Live(log) - {c.element}
  {
    assert (log + [c])[..|log|] == log;
  }

  /** The connections attaching els to the attached multiset m makes: one per element
      whose count goes from 0 to 1, at the moment it does. */
  function Connects<E(==)>(m: multiset<E>, els: seq<E>): seq<Connection<E>>
    decreases |els|
  {
    if els == [] then []
    else
      var init := els[..|els| - 1];
      var e := els[|els| - 1];
      Connects(m, init) + (if (m + multiset(init))[e] == 0 then [Connect(e)] else [])
  }

  /** The disconnections detaching els from m makes: one per element whose count reaches
      0, at the moment it does. */
  function Disconnects<E(==)>(m: multiset<E>, els: seq<E>): seq<Connection<E>>
    decreases |els|
  {
    if els == [] then []
    else
      var init := els[..|els| - 1];
      var e := els[|els| - 1];
      Disconnects(m, init) + (if (m - multiset(init))[e] == 1 then [Disconnect(e)] else [])
  }

  lemma PrefixBag<E>(els: seq<E>, i: nat)
    requires i <= |els|
    ensures multiset(els[..i]) + multiset(els[i..]) == multiset(els)
  {
    assert els == els[..i] + els[i..];
  }

  /** Attaching connects each element that had no instance exactly once, and nothing else. */
  lemma {:induction false} ConnectsOnce<E>(m: multiset<E>, els: seq<E>, x: E)
    ensures multiset(Connects(m, els))[Connect(x)] == if x in els && x !in m then 1 else 0
    ensures multiset(Connects(m, els))[Disconnect(x)] == 0
    decreases |els|
  {
    if els != [] {
      var init := els[..|els| - 1];
      var e := els[|els| - 1];
      ConnectsOnce(m, init, x);
      assert els == init + [e];
      assert x in els <==> x in init || x == e;
      if x == e && x !in init && x !in m {
        assert (m + multiset(init))[e] == 0;
      }
      if x == e && x in init {
        assert (m + multiset(init))[e] > 0;
      }
    }
  }

  /** Detaching what is attached disconnects each element whose instances all go exactly
      once, and nothing else. */
  lemma {:induction false} DisconnectsOnce<E>(m: multiset<E>, els: seq<E>, x: E)
    requires multiset(els) <= m
    ensures multiset(Disconnects(m, els))[Disconnect(x)] == if x in els && multiset(els)[x] == m[x] then 1 else 0
    ensures multiset(Disconnects(m, els))[Connect(x)] == 0
    decreases |els|
  {
    if els != [] {
      var init := els[..|els| - 1];
      var e := els[|els| - 1];
      assert els == init + [e];
      assert multiset(els) == multiset(init) + multiset{e};
      DisconnectsOnce(m, init, x);
      assert x in els <==> x in init || x == e;
      if x == e {
        assert (m - multiset(init))[e] == m[e] - multiset(init)[e];
      }
    }
  }

  /** The instance counts of one model, with the connection log. */
  class InstanceCounter<E(==)> {
    /** `_instance_counts`. */
    var counts: map<E, nat>
    /** Every connection made or broken, in order. */
    var log: seq<Connection<E>>
    /** The elements attached and not yet detached. */
    ghost var attached: multiset<E>

    /** The counts are the instance counts of what is attached, and exactly the elements
        with instances have their signals connected. */
    ghost predicate Valid()
      reads this
    {
      counts == CountsOf(attached) && Live(log) == Elements(attached)
    }

    constructor ()
      ensures Valid() && attached == multiset{} && counts == map[] && log == []
    {
      counts := map[];
      log := [];
      attached := multiset{};
    }

    /** One more instance of e; its signals are connected when it is the first. */
    method AttachOne(e: E)
      requires Valid()
      modifies this
      ensures Valid() && attached == old(attached) + multiset{e}
      ensures log == old(log) + if old(attached)[e] == 0 then [Connect(e)] else []
    {
      var count := (if e in counts then counts[e] else 0) + 1;
      CountsAdd(attached, e);
      ElementsAdd(attached, e);
      counts := counts[e := count];
      if count == 1 {
        LiveAppend(log, Connect(e));
        log := log + [Connect(e)];
      }
      attached := attached + multiset{e};
    }

    /** Attaching the next of elements, the ones before it attached already. */
    method AttachNext(ghost m: multiset<E>, ghost l: seq<Connection<E>>, elements: seq<E>, i: nat)
      requires Valid() && i < |elements|
      requires attached == m + multiset(elements[..i]) && log == l + Connects(m, elements[..i])
      modifies this
      ensures Valid() && attached == m + multiset(elements[..i + 1]) && log == l + Connects(m, elements[..i + 1])
    {
      ConnectsStep(m, elements, i);
      ghost var done := Connects(m, elements[..i]);
      ghost var step := if attached[elements[i]] == 0 then [Connect(elements[i])] else [];
      AttachOne(elements[i]);
      assert (l + done) + step == l + (done + step);
    }

    /** `_attach_elements`. */
    method Attach(elements: seq<E>)
      requires Valid()
      modifies this
      ensures Valid() && attached == old(attached) + multiset(elements)
      ensures log == old(log) + Connects(old(attached), elements)
    {
      ghost var m, l := attached, log;
      var i := 0;
      assert elements[..0] == [];
      while i < |elements|
        invariant 0 <= i <= |elements|
        invariant Valid()
        invariant attached == m + multiset(elements[..i])
        invariant log == l + Connects(m, elements[..i])
      {
        AttachNext(m, l, elements, i);
        i := i + 1;
      }
      assert elements[..i] == elements;
    }

    /** One instance of e fewer; its signals are disconnected and its key dropped when it
        was the last. */
    method DetachOne(e: E)
      requires Valid() && e in attached
      modifies this
      ensures Valid() && attached == old(attached) - multiset{e}
      ensures log == old(log) + if old(attached)[e] == 1 then [Disconnect(e)] else []
    {
      var count := counts[e] - 1;
      CountsRemove(attached, e);
      ElementsRemove(attached, e);
      if count == 0 {
        LiveAppend(log, Disconnect(e));
        log := log + [Disconnect(e)];
        counts := counts - {e};
      } else {
        counts := counts[e := count];
      }
      attached := attached - multiset{e};
    }

    /** Detaching the next of elements, the ones before it detached already. */
    method DetachNext(ghost m: multiset<E>, ghost l: seq<Connection<E>>, elements: seq<E>, i: nat)
      requires Valid() && i < |elements| && multiset(elements) <= m
      requires attached == m - multiset(elements[..i]) && log == l + Disconnects(m, elements[..i])
      modifies this
      ensures Valid() && attached == m - multiset(elements[..i + 1]) && log == l + Disconnects(m, elements[..i + 1])
    {
      DisconnectsStep(m, elements, i);
      ghost var done := Disconnects(m, elements[..i]);
      ghost var step := if attached[elements[i]] == 1 then [Disconnect(elements[i])] else [];
      DetachOne(elements[i]);
      assert (l + done) + step == l + (done + step);
    }

    /** `_detach_elements`, for elements that are attached. */
    method Detach(elements: seq<E>)
      requires Valid() && multiset(elements) <= attached
      modifies this
      ensures Valid() && attached == old(attached) - multiset(elements)
      ensures log == old(log) + Disconnects(old(attached), elements)
    {
      var i := 0;
      while i < |elements|
        invariant 0 <= i <= |elements|
        invariant Valid()
        invariant attached == old(attached) - multiset(elements[..i])
        invariant log == old(log) + Disconnects(old(attached), elements[..i])
      {
        DetachNext(old(attached), old(log), elements, i);
        i := i + 1;
      }
      assert elements[..i] == elements;
    }
  }

  lemma ConnectsStep<E>(m: multiset<E>, els: seq<E>, i: nat)
    requires i < |els|
    ensures m + multiset(els[..i + 1]) == (m + multiset(els[..i])) + multiset{els[i]}
    ensures Connects(m, els[..i + 1]) == Connects(m, els[..i]) + if (m + multiset(els[..i]))[els[i]] == 0 then [Connect(els[i])] else []
  {
    assert els[..i + 1][..i] == els[..i];
    assert els[..i + 1] == els[..i] + [els[i]];
  }

  lemma DisconnectsStep<E>(m: multiset<E>, els: seq<E>, i: nat)
    requires i < |els| && multiset(els) <= m
    ensures els[i] in m - multiset(els[..i])
    ensures m - multiset(els[..i + 1]) == (m - multiset(els[..i])) - multiset{els[i]}
    ensures Disconnects(m, els[..i + 1]) == Disconnects(m, els[..i]) + if (m - multiset(els[..i]))[els[i]] == 1 then [Disconnect(els[i])] else []
  {
    assert els[..i + 1][..i] == els[..i];
    assert els[..i + 1] == els[..i] + [els[i]];
    PrefixBag(els, i + 1);
    assert multiset(els[..i + 1]) == multiset(els[..i]) + multiset{els[i]};
  }

  // ---------------------------------------------------------------------------------------
  // Following the list

  /** The elements a post-change signal says left the list. */
  function Departed<E>(e: Event<E>): seq<E> {
    if e.Removed? then e.objs else if e.Replaced? then e.olds else []
  }

  /** The elements a post-change signal says entered the list. */
  function Arrived<E>(e: Event<E>): seq<E> {
    if e.Inserted? then e.objs else if e.Replaced? then e.news else []
  }

  /** A change a post-change signal describes takes exactly the departed elements out of
      the list and puts the arrived ones in. */
  lemma ApplyElements<E>(l: seq<E>, e: Event<E>)
    requires Fits(l, e)
    ensures multiset(Apply(l, e)) + multiset(Departed(e)) == multiset(l) + multiset(Arrived(e))
    ensures multiset(Departed(e)) <= multiset(l)
  {
    if e.Inserted? {
      assert l == l[..e.index] + l[e.index..];
    } else if e.Removed? {
      DeletedElements(l, e.idxs);
    } else {
      ReplacedElements(l, e.idxs, e.news);
      DeletedElements(l, e.idxs);
    }
  }

  /** The bookkeeping `_on_inserted`, `_on_replaced` and `_on_removed` do for the post-change
      signal e of a list whose contents were before: the departed elements detached, then the
      arrived ones attached. Afterwards the counts are those of the list's new contents. */
  method Track<E(==)>(counter: InstanceCounter<E>, ghost before: seq<E>, e: Event<E>)
    requires counter.Valid() && counter.attached == multiset(before) && Fits(before, e)
    modifies counter
    ensures counter.Valid() && counter.attached == multiset(Apply(before, e))
    ensures counter.log == old(counter.log) + Disconnects(old(counter.attached), Departed(e)) +
                           Connects(old(counter.attached) - multiset(Departed(e)), Arrived(e))
  {
    assert multiset(Departed(e)) <= multiset(before) by {
      ApplyElements(before, e);
    }
    counter.Detach(Departed(e));
    counter.Attach(Arrived(e));
    assert counter.attached == multiset(Apply(before, e)) by {
      ApplyElements(before, e);
      BagShift(multiset(before), multiset(Departed(e)), multiset(Arrived(e)), multiset(Apply(before, e)));
    }
  }

  lemma BagShift<E>(m: multiset<E>, d: multiset<E>, a: multiset<E>, x: multiset<E>)
    requires x + d == m + a && d <= m
    ensures (m - d) + a == x
  {
    forall y ensures ((m - d) + a)[y] == x[y] {
      assert (x + d)[y] == (m + a)[y];
    }
  }

  /** A model handling, in order, every signal a list emits keeps its counts equal to the
      list's contents, whatever the operation was, as long as the signals can be followed. */
  method TrackAll<E(==)>(counter: InstanceCounter<E>, ghost l: seq<E>, evs: seq<Event<E>>)
    requires counter.Valid() && counter.attached == multiset(l) && Replay(l, evs).Some?
    modifies counter
    ensures counter.Valid() && counter.attached == multiset(Replay(l, evs).value)
  {
    var i := 0;
    ghost var cur := l;
    while i < |evs|
      invariant 0 <= i <= |evs|
      invariant counter.Valid() && counter.attached == multiset(cur)
      invariant Replay(cur, evs[i..]) == Replay(l, evs)
    {
      assert evs[i..][0] == evs[i] && evs[i..][1..] == evs[i + 1..];
      if !IsPre(evs[i]) {
        Track(counter, cur, evs[i]);
        cur := Apply(cur, evs[i]);
      }
      i := i + 1;
    }
  }

  /** The slots following the signals of del l[s]: the deleted elements are detached, each
      disconnected when its last instance goes, and nothing is connected. */
  method TrackDelSlice<E(==)>(counter: InstanceCounter<E>, l: seq<E>, s: Slice, evs: seq<Event<E>>)
    requires counter.Valid() && counter.attached == multiset(l)
    requires s.step != Some(0) && evs == DelSliceSignals(l, s)
    modifies counter
    ensures counter.Valid() && counter.attached == multiset(PyList.DelSlice(l, s).value)
    ensures counter.log == old(counter.log) + Disconnects(old(counter.attached), GetSlice(l, s).value)
  {
    DelSliceReplays(l, s);
    PositionsValid(s, |l|);
    var idxs := Positions(Indices(s, |l|).value);
    var objs := GetSlice(l, s).value;
    if evs == [] {
      return;
    }
    var post := Removed(idxs, objs);
    assert evs == [Removing(idxs, objs), post];
    assert evs[1..] == [post] && [post][1..] == [];
    assert Fits(l, post) && Replay(l, evs) == Some(Apply(l, post));
    Track(counter, l, post);
  }

  // ---------------------------------------------------------------------------------------
  // Rows of an element

  /** The positions from `from` on that hold x, ascending: what repeated list.index(x, next)
      calls find, each from just past the previous find. */
  function OccurrencesFrom<E(==)>(l: seq<E>, x: E, from: nat): seq<nat>
    decreases |l| - from
  {
    var i := IndexFrom(l, x, from);
    if i.None? then [] else [i.value] + OccurrencesFrom(l, x, i.value + 1)
  }

  /** The occurrences are positions from `from` on that hold x, in ascending order. */
  lemma {:induction false} OccurrencesAscending<E>(l: seq<E>, x: E, from: nat)
    ensures var occ := OccurrencesFrom(l, x, from);
            (forall k :: 0 <= k < |occ| ==> from <= occ[k] < |l| && l[occ[k]] == x) &&
            (forall k, j :: 0 <= k < j < |occ| ==> occ[k] < occ[j])
    decreases |l| - from
  {
    var i := IndexFrom(l, x, from);
    if i.Some? {
      OccurrencesAscending(l, x, i.value + 1);
      var occ := OccurrencesFrom(l, x, from);
      assert forall k :: 0 < k < |occ| ==> occ[k] == OccurrencesFrom(l, x, i.value + 1)[k - 1];
    }
  }

  /** Every position from `from` on that holds x is an occurrence. */
  lemma {:induction false} OccurrencesCover<E>(l: seq<E>, x: E, from: nat)
    ensures forall i :: from <= i < |l| && l[i] == x ==> i in OccurrencesFrom(l, x, from)
    decreases |l| - from
  {
    var i := IndexFrom(l, x, from);
    if i.Some? {
      OccurrencesCover(l, x, i.value + 1);
    }
  }

  /** There are as many occurrences from `from` on as x has instances there. */
  lemma {:induction false} OccurrencesCount<E>(l: seq<E>, x: E, from: nat)
    requires from <= |l|
    ensures |OccurrencesFrom(l, x, from)| == multiset(l[from..])[x]
    decreases |l| - from
  {
    var i := IndexFrom(l, x, from);
    if i.None? {
      NoInstance(l, x, from, |l|);
    } else {
      var n := i.value;
      OccurrencesCount(l, x, n + 1);
      assert l[from..] == l[from..n] + [l[n]] + l[n + 1..];
      NoInstance(l, x, from, n);
    }
  }

  lemma NoInstance<E>(l: seq<E>, x: E, from: nat, to: nat)
    requires from <= to <= |l|
    requires forall j :: from <= j < to ==> l[j] != x
    ensures multiset(l[from..to])[x] == 0
  {
    assert forall j :: 0 <= j < to - from ==> l[from..to][j] == l[from + j];
  }

  /** The loop of `_on_property_changed`: count times, the next position holding e from
      just past the previous one; when list.index finds none, the loop stops there with
      ok false (ValueError). The rows found are the first count occurrences, or all of them
      when there are fewer. */
  method ChangedRows<E(==)>(l: seq<E>, e: E, count: nat) returns (rows: seq<nat>, ok: bool)
    ensures ok <==> count <= |OccurrencesFrom(l, e, 0)|
    ensures rows == OccurrencesFrom(l, e, 0)[..Min(count, |OccurrencesFrom(l, e, 0)|)]
  {
    rows := [];
    var next: nat := 0;
    var k := 0;
    while k < count
      invariant k <= count && |rows| == k && next <= |l|
      invariant rows + OccurrencesFrom(l, e, next) == OccurrencesFrom(l, e, 0)
    {
      var row := IndexFrom(l, e, next);
      if row.None? {
        assert rows == OccurrencesFrom(l, e, 0);
        return rows, false;
      }
      assert (rows + [row.value]) + OccurrencesFrom(l, e, row.value + 1) == rows + OccurrencesFrom(l, e, next);
      rows := rows + [row.value];
      next := row.value + 1;
      k := k + 1;
    }
    assert rows == OccurrencesFrom(l, e, 0)[..Min(count, |OccurrencesFrom(l, e, 0)|)];
    ok := true;
  }

  /** With counts that are the list's instance counts, the rows the loop finds for a
      counted element are every row holding it, in ascending order. */
  lemma ChangedRowsAll<E>(l: seq<E>, e: E)
    requires e in CountsOf(multiset(l))
    ensures var occ := OccurrencesFrom(l, e, 0);
            CountsOf(multiset(l))[e] == |occ| &&
            (forall k :: 0 <= k < |occ| ==> occ[k] < |l| && l[occ[k]] == e) &&
            (forall k, j :: 0 <= k < j < |occ| ==> occ[k] < occ[j]) &&
            (forall i :: 0 <= i < |l| && l[i] == e ==> i in occ)
  {
    OccurrencesAscending(l, e, 0);
    OccurrencesCover(l, e, 0);
    OccurrencesCount(l, e, 0);
    assert l[0..] == l;
  }

  /** min() and max() of a non-empty list of indexes. */
  function SeqMin(s: seq<int>): (r: int)
    requires s != []
    ensures r in s && forall k :: 0 <= k < |s| ==> r <= s[k]
  {
    if |s| == 1 then s[0] else var m := SeqMin(s[1..]); if s[0] <= m then s[0] else m
  }

  function SeqMax(s: seq<int>): (r: int)
    requires s != []
    ensures r in s && forall k :: 0 <= k < |s| ==> s[k] <= r
  {
    if |s| == 1 then s[0] else var m := SeqMax(s[1..]); if s[0] >= m then s[0] else m
  }
}
