/** Property: a descriptor giving an attribute of a bearer object a default value and a
    change signal. Per bearer, the property keeps an optional explicit override under
    `_<name>` and a stored default under `_default_<name>`; what reading the property shows
    is the override when there is one and the stored default otherwise. The bearer's
    attributes are a partial map from attribute name to value (a missing key is an
    AttributeError), and the signals emitted and callbacks run are an appended log. */
module Properties {
  import opened Wrappers

  // ---------------------------------------------------------------------------------------
  // Names

  /** The attribute holding the explicit override. */
  function VarName(name: string): string {
    "_" + name
  }

  /** The attribute holding the stored default. */
  function DefaultVarName(name: string): string {
    "_default_" + name
  }

  /** The bearer's signal emitted when the shown value changes. */
  function ChangedSignalName(name: string): string {
    name + "_changed"
  }

  /** A property's three derived names are pairwise different, and each of them determines
      the property's name. */
  lemma DerivedNames(a: string, b: string)
    ensures VarName(a) != DefaultVarName(a)
    ensures ChangedSignalName(a) != VarName(a) && ChangedSignalName(a) != DefaultVarName(a)
    ensures VarName(a) == VarName(b) ==> a == b
    ensures DefaultVarName(a) == DefaultVarName(b) ==> a == b
    ensures ChangedSignalName(a) == ChangedSignalName(b) ==> a == b
  {
    assert VarName(a)[1..] == a && VarName(b)[1..] == b;
    assert DefaultVarName(a)[9..] == a && DefaultVarName(b)[9..] == b;
    if ChangedSignalName(a) == ChangedSignalName(b) {
      assert |a| == |b|;
      assert ChangedSignalName(a)[..|a|] == a && ChangedSignalName(b)[..|b|] == b;
    }
  }

  /** Names are not separated between properties: a property called `default_<n>` keeps
      its override in the attribute where the property called `<n>` keeps its default. */
  lemma OverrideMeetsDefault(n: string)
    ensures VarName("default_" + n) == DefaultVarName(n)
  {
    assert "_" + ("default_" + n) == "_default_" + n;
  }

  // ---------------------------------------------------------------------------------------
  // The descriptor

  /** A property: its name and its callbacks. A callback that may consult the bearer sees
      the bearer's attributes. The pre-set callback's answer is false exactly when it
      returns False (any other answer lets the assignment proceed). The post-set callback's
      own effects lie outside the model; that it ran, and with which value, is logged. */
  datatype Property<!V> = Property(
    name: string,
    defaultValue: map<string, V> -> V,
    takeArg: Option<(map<string, V>, V) -> V>,
    preSet: Option<(map<string, V>, V) -> bool>,
    hasPostSet: bool)

  /** What a property operation makes observable. */
  datatype PropertyEvent<V> =
    | PreSetCalled(property: string, value: V)
    | PostSetCalled(property: string, value: V)
    | Emitted(signal: string)

  /** The value an assignment of v stores: v passed through take_arg when there is one. */
  function Taken<V>(p: Property<V>, attrs: map<string, V>, v: V): V {
    if p.takeArg.Some? then p.takeArg.value(attrs, v) else v
  }

  function HasOverride<V>(p: Property<V>, attrs: map<string, V>): bool {
    VarName(p.name) in attrs
  }

  /** Reading the property on a bearer: the override when there is one, otherwise the
      stored default; None when neither attribute exists (AttributeError). */
  function Apparent<V>(p: Property<V>, attrs: map<string, V>): (r: Option<V>)
    ensures r.Some? <==> VarName(p.name) in attrs || DefaultVarName(p.name) in attrs
  {
    if VarName(p.name) in attrs then Some(attrs[VarName(p.name)])
    else if DefaultVarName(p.name) in attrs then Some(attrs[DefaultVarName(p.name)])
    else None
  }

  /** is_default: true without an override; with one, whether it equals the stored
      default, which must then exist (None: AttributeError). */
  function IsDefault<V(==)>(p: Property<V>, attrs: map<string, V>): (r: Option<bool>)
    ensures r.None? <==> VarName(p.name) in attrs && DefaultVarName(p.name) !in attrs
  {
    if VarName(p.name) !in attrs then Some(true)
    else if DefaultVarName(p.name) !in attrs then None
    else Some(attrs[VarName(p.name)] == attrs[DefaultVarName(p.name)])
  }

  /** On an instantiated bearer, the property is at its default exactly when it shows
      the stored default. */
  lemma IsDefaultShowsDefault<V>(p: Property<V>, attrs: map<string, V>)
    requires DefaultVarName(p.name) in attrs
    ensures IsDefault(p, attrs) == Some(Apparent(p, attrs) == Some(attrs[DefaultVarName(p.name)]))
  {
  }

  /** The log of a successful assignment of the stored value w: the pre-set call, the
      post-set call, then the change signal, each present as the property provides. */
  function SetSignals<V>(p: Property<V>, w: V): (r: seq<PropertyEvent<V>>)
    ensures |r| >= 1 && r[|r| - 1] == Emitted(ChangedSignalName(p.name))
  {
    (if p.preSet.Some? then [PreSetCalled(p.name, w)] else []) +
    (if p.hasPostSet then [PostSetCalled(p.name, w)] else []) +
    [Emitted(ChangedSignalName(p.name))]
  }

  /** An assignment is skipped when the value to store equals the present override. */
  predicate SetSkipped<V(==)>(p: Property<V>, attrs: map<string, V>, w: V) {
    VarName(p.name) in attrs && attrs[VarName(p.name)] == w
  }

  /** An assignment is vetoed when it is not skipped and the pre-set callback returns False. */
  predicate SetVetoed<V(==)>(p: Property<V>, attrs: map<string, V>, w: V) {
    !SetSkipped(p, attrs, w) && p.preSet.Some? && !p.preSet.value(attrs, w)
  }

  /** A bearer: its attributes and everything emitted on it. */
  class Bearer<V(==)> {
    var attrs: map<string, V>
    var events: seq<PropertyEvent<V>>

    constructor ()
      ensures attrs == map[] && events == []
    {
      attrs := map[];
      events := [];
    }

    /** instantiate: stores the property's default for this bearer. */
    method Instantiate(p: Property<V>)
      modifies this
      ensures attrs == old(attrs)[DefaultVarName(p.name) := p.defaultValue(old(attrs))]
      ensures events == old(events)
      ensures Apparent(p, attrs) == if HasOverride(p, old(attrs)) then Apparent(p, old(attrs)) else Some(p.defaultValue(old(attrs)))
    {
      DerivedNames(p.name, p.name);
      attrs := attrs[DefaultVarName(p.name) := p.defaultValue(attrs)];
    }

    /** update_default: recomputes the stored default. Under an override the shown value
        does not change and nothing is signalled; otherwise the change signal is emitted
        exactly when the new default differs from the old. Without an override or a stored
        default it raises (returns false) and changes nothing. */
    method UpdateDefault(p: Property<V>) returns (ok: bool)
      modifies this
      ensures ok <==> HasOverride(p, old(attrs)) || DefaultVarName(p.name) in old(attrs)
      ensures !ok ==> attrs == old(attrs) && events == old(events)
      ensures ok ==> attrs == old(attrs)[DefaultVarName(p.name) := p.defaultValue(old(attrs))]
      ensures ok && HasOverride(p, old(attrs)) ==> events == old(events) && Apparent(p, attrs) == Apparent(p, old(attrs))
      ensures ok && !HasOverride(p, old(attrs)) ==>
                Apparent(p, attrs) == Some(p.defaultValue(old(attrs))) &&
                events == old(events) + (if Apparent(p, old(attrs)) == Apparent(p, attrs) then [] else [Emitted(ChangedSignalName(p.name))])
    {
      DerivedNames(p.name, p.name);
      if VarName(p.name) in attrs {
        attrs := attrs[DefaultVarName(p.name) := p.defaultValue(attrs)];
        return true;
      }
      if DefaultVarName(p.name) !in attrs {
        return false;
      }
      var oldDefault := attrs[DefaultVarName(p.name)];
      var newDefault := p.defaultValue(attrs);
      if newDefault != oldDefault {
        attrs := attrs[DefaultVarName(p.name) := newDefault];
        events := events + [Emitted(ChangedSignalName(p.name))];
      }
      ok := true;
    }

    /** copy_instance_value(src, this): copies src's override, when it has one, without
        callbacks or signals. */
    method CopyInstanceValue(p: Property<V>, src: Bearer<V>)
      modifies this
      ensures attrs == if HasOverride(p, old(src.attrs)) then old(attrs)[VarName(p.name) := old(src.attrs)[VarName(p.name)]] else old(attrs)
      ensures events == old(events)
      ensures HasOverride(p, old(src.attrs)) ==> Apparent(p, attrs) == Apparent(p, old(src.attrs))
    {
      if VarName(p.name) in src.attrs {
        attrs := attrs[VarName(p.name) := src.attrs[VarName(p.name)]];
      }
    }

    /** Assigning v: the value to store is v through take_arg. Equal to the present
        override, nothing happens. Otherwise the pre-set callback may veto; if it does not,
        the value is stored, post-set runs, and the change signal is emitted once. Without an
        override the assignment proceeds even when the value equals the default. */
    method Set(p: Property<V>, v: V)
      modifies this
      ensures var w := Taken(p, old(attrs), v);
              if SetSkipped(p, old(attrs), w) then attrs == old(attrs) && events == old(events)
              else if SetVetoed(p, old(attrs), w) then attrs == old(attrs) && events == old(events) + [PreSetCalled(p.name, w)]
              else attrs == old(attrs)[VarName(p.name) := w] && events == old(events) + SetSignals(p, w) &&
                   Apparent(p, attrs) == Some(w)
    {
      var w := Taken(p, attrs, v);
      if VarName(p.name) !in attrs || w != attrs[VarName(p.name)] {
        if p.preSet.Some? {
          events := events + [PreSetCalled(p.name, w)];
          if !p.preSet.value(attrs, w) {
            return;
          }
        }
        attrs := attrs[VarName(p.name) := w];
        if p.hasPostSet {
          events := events + [PostSetCalled(p.name, w)];
        }
        events := events + [Emitted(ChangedSignalName(p.name))];
      }
    }

    /** Deleting: removes the override. When the override differed from the stored default,
        post-set runs with the default and the change signal is emitted; with no override
        nothing happens, and with no stored default the removal happens silently (the
        AttributeError is swallowed). */
    method Delete(p: Property<V>)
      modifies this
      ensures attrs == old(attrs) - {VarName(p.name)}
      ensures Apparent(p, attrs) == if DefaultVarName(p.name) in old(attrs) then Some(old(attrs)[DefaultVarName(p.name)]) else None
      ensures var signalled := HasOverride(p, old(attrs)) && DefaultVarName(p.name) in old(attrs) &&
                               old(attrs)[VarName(p.name)] != old(attrs)[DefaultVarName(p.name)];
              events == old(events) +
                (if signalled
                 then (if p.hasPostSet then [PostSetCalled(p.name, old(attrs)[DefaultVarName(p.name)])] else []) + [Emitted(ChangedSignalName(p.name))]
                 else [])
      ensures events == old(events) <==> IsDefault(p, old(attrs)) != Some(false)
    {
      DerivedNames(p.name, p.name);
      if VarName(p.name) !in attrs {
        return;
      }
      var oldValue := attrs[VarName(p.name)];
      attrs := attrs - {VarName(p.name)};
      if DefaultVarName(p.name) !in attrs {
        return;
      }
      var newValue := attrs[DefaultVarName(p.name)];
      if oldValue != newValue {
        if p.hasPostSet {
          events := events + [PostSetCalled(p.name, newValue)];
        }
        events := events + [Emitted(ChangedSignalName(p.name))];
      }
    }
  }

  /** After deleting, the property is at its default. */
  lemma DeletedIsDefault<V>(p: Property<V>, attrs: map<string, V>)
    ensures IsDefault(p, attrs - {VarName(p.name)}) == Some(true)
  {
  }

  /** Assigning the value already shown through an override changes nothing, and
      assigning anything else through a property without take_arg or pre-set always
      lands. */
  lemma SetOutcomes<V>(p: Property<V>, attrs: map<string, V>, v: V)
    ensures Apparent(p, attrs) == Some(v) && HasOverride(p, attrs) && p.takeArg.None? ==> SetSkipped(p, attrs, Taken(p, attrs, v))
    ensures p.preSet.None? ==> !SetVetoed(p, attrs, Taken(p, attrs, v))
    ensures !HasOverride(p, attrs) ==> !SetSkipped(p, attrs, Taken(p, attrs, v))
  {
  }
}
