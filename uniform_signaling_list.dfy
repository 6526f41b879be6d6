/** UniformSignalingList: a SignalingList whose every element passes through
    take_input_element on the way in. The conversion is the subclass's hook; the base hook
    always raises. Every incoming element is converted before the underlying list is
    touched, so a conversion that raises leaves the list and its signals as they were. */
module UniformSignalingLists {
  import opened Wrappers
  import opened PyList
  import opened SignalingLists

  /** What an operation of the uniform list raises: the conversion hook's exception, or an
      error of the underlying list operation. */
  datatype UniformError = TakeFailed | ListError(error: PyError)

  /** take_input_element as a value: Some(converted element), or None where it raises. */
  type Take<!E> = E -> Option<E>

  /** The base class's take_input_element, which raises NotImplementedError for every element. */
  function BaseTake<E>(): Take<E> {
    _ => None
  }

  /** list(map(take, xs)): every element converted, in order, or None when a conversion
      raises. */
  function TakeAll<E>(take: Take<E>, xs: seq<E>): (r: Option<seq<E>>)
    decreases |xs|
  {
    if xs == [] then Some([])
    else
      var first := take(xs[0]);
      var rest := TakeAll(take, xs[1..]);
      if first.Some? && rest.Some? then Some([first.value] + rest.value) else None
  }

  /** The conversion of a sequence succeeds exactly when every element converts, and then
      holds each element's conversion at that element's position. */
  lemma {:induction false} TakeAllElementwise<E>(take: Take<E>, xs: seq<E>)
    ensures TakeAll(take, xs).Some? <==> forall i :: 0 <= i < |xs| ==> take(xs[i]).Some?
    ensures TakeAll(take, xs).Some? ==>
              |TakeAll(take, xs).value| == |xs| &&
              forall i :: 0 <= i < |xs| ==> TakeAll(take, xs).value[i] == take(xs[i]).value
    decreases |xs|
  {
    if xs != [] {
      TakeAllElementwise(take, xs[1..]);
      forall i | 0 < i < |xs|
        ensures xs[i] == xs[1..][i - 1]
      {
      }
    }
  }

  /** Converting a concatenation converts each part. */
  lemma {:induction false} TakeAllAppend<E>(take: Take<E>, xs: seq<E>, ys: seq<E>)
    ensures TakeAll(take, xs + ys) ==
              if TakeAll(take, xs).Some? && TakeAll(take, ys).Some?
              then Some(TakeAll(take, xs).value + TakeAll(take, ys).value) else None
    decreases |xs|
  {
    if xs == [] {
      assert xs + ys == ys;
      if TakeAll(take, ys).Some? {
        assert [] + TakeAll(take, ys).value == TakeAll(take, ys).value;
      }
    } else {
      assert (xs + ys)[0] == xs[0] && (xs + ys)[1..] == xs[1..] + ys;
      TakeAllAppend(take, xs[1..], ys);
      if TakeAll(take, xs).Some? && TakeAll(take, ys).Some? {
        assert [take(xs[0]).value] + (TakeAll(take, xs[1..]).value + TakeAll(take, ys).value) ==
               ([take(xs[0]).value] + TakeAll(take, xs[1..]).value) + TakeAll(take, ys).value;
      }
    }
  }

  /** With the base hook, no element converts: only the empty sequence goes through. */
  lemma BaseTakeRejects<E>(xs: seq<E>)
    ensures TakeAll(BaseTake(), xs).Some? <==> xs == []
  {
    TakeAllElementwise(BaseTake(), xs);
    if xs != [] {
      assert BaseTake()(xs[0]).None?;
    }
  }

  class UniformSignalingList<E(==)> {
    /** This list's take_input_element. */
    const take: Take<E>
    /** The SignalingList state this list extends. */
    const list: SignalingList<E>

    constructor Wrap(take: Take<E>, list: SignalingList<E>)
      ensures this.take == take && this.list == list
    {
      this.take := take;
      this.list := list;
    }

    /** UniformSignalingList(iterable): no iterable gives the empty list; otherwise every
        element is converted, in order, and a conversion that raises means no list at all. */
    static method New(take: Take<E>, iterable: Option<seq<E>>) returns (r: Option<UniformSignalingList<E>>)
      ensures iterable.None? ==> r.Some? && r.value.list.items == []
      ensures iterable.Some? ==> (r.Some? <==> TakeAll(take, iterable.value).Some?)
      ensures iterable.Some? && r.Some? ==> r.value.list.items == TakeAll(take, iterable.value).value
      ensures r.Some? ==> fresh(r.value) && fresh(r.value.list) && r.value.take == take && r.value.list.events == []
    {
      var init: seq<E> := [];
      if iterable.Some? {
        var converted := TakeAll(take, iterable.value);
        if converted.None? {
          return None;
        }
        init := converted.value;
      }
      var l := new SignalingList(init);
      var u := new UniformSignalingList.Wrap(take, l);
      r := Some(u);
    }

    /** self[s] = srcs: all sources converted first, then the base assignment, whose error is
        passed on: ValueError for a zero step, NameError for a strided length mismatch. */
    method SetSlice(s: Slice, srcs: seq<E>) returns (err: Option<UniformError>)
      modifies list
      ensures var conv := TakeAll(take, srcs);
              if conv.None? then err == Some(TakeFailed) && list.items == old(list.items) && list.events == old(list.events)
              else
                var r := AssignSlice(old(list.items), s, conv.value);
                if r.Failure? then err == Some(ListError(if s.step == Some(0) then ValueError else NameError)) && list.items == old(list.items) && list.events == old(list.events)
                else err.None? && list.items == r.value && list.events == old(list.events) + SetSliceSignals(old(list.items), s, conv.value)
    {
      var conv := TakeAll(take, srcs);
      if conv.None? {
        return Some(TakeFailed);
      }
      var e := list.SetSlice(s, conv.value);
      err := if e.Some? then Some(ListError(e.value)) else None;
    }

    /** self[i] = v: v converted first, then the base assignment. */
    method SetIndex(i: int, v: E) returns (err: Option<UniformError>)
      modifies list
      ensures var conv := take(v);
              if conv.None? then err == Some(TakeFailed) && list.items == old(list.items) && list.events == old(list.events)
              else
                var r := AssignIndex(old(list.items), i, conv.value);
                if r.Failure? then err == Some(ListError(r.error)) && list.items == old(list.items) && list.events == old(list.events)
                else err.None? && list.items == r.value &&
                     list.events == old(list.events) + SetIndexSignals(old(list.items), PyIndex(|old(list.items)|, i).value, conv.value)
    {
      var conv := take(v);
      if conv.None? {
        return Some(TakeFailed);
      }
      var e := list.SetIndex(i, conv.value);
      err := if e.Some? then Some(ListError(e.value)) else None;
    }

    /** extend(srcs): all sources converted first, then the base extension. */
    method Extend(srcs: seq<E>) returns (err: Option<UniformError>)
      modifies list
      ensures var conv := TakeAll(take, srcs);
              if conv.None? then err == Some(TakeFailed) && list.items == old(list.items) && list.events == old(list.events)
              else err.None? && list.items == old(list.items) + conv.value &&
                   list.events == old(list.events) + ExtendSignals(old(list.items), conv.value)
    {
      var conv := TakeAll(take, srcs);
      if conv.None? {
        return Some(TakeFailed);
      }
      list.Extend(conv.value);
      err := None;
    }

    /** insert(i, x): x converted first, then the base insertion. */
    method Insert(i: int, x: E) returns (err: Option<UniformError>)
      modifies list
      ensures var conv := take(x);
              if conv.None? then err == Some(TakeFailed) && list.items == old(list.items) && list.events == old(list.events)
              else err.None? && list.items == PyList.Insert(old(list.items), i, conv.value) &&
                   list.events == old(list.events) + InsertSignals(old(list.items), i, conv.value)
    {
      var conv := take(x);
      if conv.None? {
        return Some(TakeFailed);
      }
      list.Insert(i, conv.value);
      err := None;
    }
  }
}
