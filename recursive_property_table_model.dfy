/** RecursivePropertyTableModel: a Qt table model whose columns are dotted property paths
    ("foo.bar" is element.foo.bar). The paths are kept in a descriptor tree whose shared
    prefixes share nodes, and every element of the list has an instance tree that follows
    the descriptor tree as far as the element's attributes reach. Attribute lookup is a fixed
    partial function: getattr either fails (AttributeError) or gives a value, which may be
    None. */
module RecursivePropertyTableModels {
  import opened Wrappers
  import opened PyStr
  import opened PyList
  import opened SignalingLists
  import opened TableModels
  import opened PropertyTableModels

  // ---------------------------------------------------------------------------------------
  // The descriptor tree

  /** A PropertyDescrTreeNode: the path component it stands for, the dotted path from below
      the root down to it, its children by component, and whether its path is a column. */
  datatype DescrNode = DescrNode(name: string, fullName: string, children: map<string, DescrNode>, isSeen: bool)

  /** The root, which stands for no component. */
  const DescrRoot := DescrNode("*DESCR ROOT*", "", map[], false)

  /** is_leaf: a node without children. */
  predicate IsLeaf(d: DescrNode) {
    d.children == map[]
  }

  /** The node at the end of the path of components p, if there is one. */
  function Find(t: DescrNode, p: seq<string>): Option<DescrNode>
    decreases |p|
  {
    if p == [] then Some(t)
    else if p[0] in t.children then Find(t.children[p[0]], p[1..])
    else None
  }

  /** A node's full_name: its path's components joined with dots. */
  function FullName(p: seq<string>): string {
    Join(p, '.')
  }

  /** `_rec_init_descr_tree(t, path)` for the node t whose path is base: the child for the
      first component is reused or made, with its full name; its own subtree grows by the
      rest of the path, or, at the end of the path, it is marked seen. */
  function Grow(t: DescrNode, base: seq<string>, path: seq<string>): DescrNode
    requires path != []
    decreases |path|
  {
    var name := path[0];
    var node := if name in t.children then t.children[name] else DescrNode(name, FullName(base + [name]), map[], false);
    var grown := if |path| > 1 then Grow(node, base + [name], path[1..]) else node.(isSeen := true);
    t.(children := t.children[name := grown])
  }

  /** The tree grown by path holds the nodes it held, and a node for every non-empty prefix
      of path; the nodes it held keep their names, and a new one is named after its path;
      a node is seen when it was, or when it is the end of path. */
  lemma {:induction false} GrowFind(t: DescrNode, base: seq<string>, path: seq<string>, q: seq<string>)
    requires path != []
    ensures var g := Find(Grow(t, base, path), q);
            var f := Find(t, q);
            (g.Some? <==> f.Some? || (q != [] && q <= path)) &&
            (g.Some? ==> (g.value.isSeen <==> (f.Some? && f.value.isSeen) || q == path)) &&
            (g.Some? && f.Some? ==> g.value.name == f.value.name && g.value.fullName == f.value.fullName) &&
            (g.Some? && f.None? ==> g.value.name == q[|q| - 1] && g.value.fullName == FullName(base + q))
    decreases |path|
  {
    var name := path[0];
    var node := if name in t.children then t.children[name] else DescrNode(name, FullName(base + [name]), map[], false);
    var grown := if |path| > 1 then Grow(node, base + [name], path[1..]) else node.(isSeen := true);
    var gt := Grow(t, base, path);
    assert gt == t.(children := t.children[name := grown]);
    if q != [] && q[0] == name {
      assert Find(gt, q) == Find(grown, q[1..]);
      assert q == [name] + q[1..];
      assert base + q == (base + [name]) + q[1..];
      assert q <= path <==> q[1..] <= path[1..];
      if q[1..] != [] {
        assert q[1..][|q[1..]| - 1] == q[|q| - 1];
      }
      if |path| > 1 {
        GrowFind(node, base + [name], path[1..], q[1..]);
        assert q == path <==> q[1..] == path[1..];
        if name in t.children {
          assert Find(t, q) == Find(node, q[1..]);
        } else {
          assert Find(t, q) == None;
          if q[1..] != [] {
            assert Find(node, q[1..]) == None;
          } else {
            assert q == [name] && Find(node, q[1..]) == Some(node);
          }
        }
      } else {
        if q[1..] != [] {
          assert Find(grown, q[1..]) == Find(node, q[1..]);
          if name in t.children {
            assert Find(t, q) == Find(node, q[1..]);
          }
        } else {
          assert Find(grown, q[1..]) == Some(grown);
          assert q == [name] && base + q == base + [name];
          if name in t.children {
            assert Find(t, q) == Some(node);
          }
        }
      }
    } else if q != [] {
      assert Find(gt, q) == Find(t, q);
      assert !(q <= path);
    }
  }

  /** q is a non-empty prefix of one of the paths. */
  ghost predicate Along(q: seq<string>, paths: seq<seq<string>>) {
    exists i :: 0 <= i < |paths| && q != [] && q <= paths[i]
  }

  /** What the descriptor tree of paths says about the path q: there is a node for q exactly
      when q is the root's or along a path; the node is named after its last component, its
      full name is the dotted join of q, and it is seen exactly when q is one of the paths. */
  ghost predicate DescribesAt(root: DescrNode, paths: seq<seq<string>>, q: seq<string>) {
    (Find(root, q).Some? <==> q == [] || Along(q, paths)) &&
    (Find(root, q).Some? ==>
       Find(root, q).value.fullName == FullName(q) &&
       (q != [] ==> Find(root, q).value.name == q[|q| - 1]) &&
       (Find(root, q).value.isSeen <==> q != [] && q in paths))
  }

  /** The descriptor tree of the paths: one node for every non-empty prefix of a path, and
      no other, below the root. */
  ghost predicate Describes(root: DescrNode, paths: seq<seq<string>>) {
    root.name == "*DESCR ROOT*" && forall q :: DescribesAt(root, paths, q)
  }

  lemma AlongAppend(q: seq<string>, paths: seq<seq<string>>, p: seq<string>)
    ensures Along(q, paths + [p]) <==> Along(q, paths) || (q != [] && q <= p)
    ensures q in paths + [p] <==> q in paths || q == p
  {
    if Along(q, paths) {
      var i :| 0 <= i < |paths| && q != [] && q <= paths[i];
      assert (paths + [p])[i] == paths[i];
    }
    if q != [] && q <= p {
      assert (paths + [p])[|paths|] == p;
    }
    if Along(q, paths + [p]) {
      var i :| 0 <= i < |paths| + 1 && q != [] && q <= (paths + [p])[i];
      if i < |paths| {
        assert (paths + [p])[i] == paths[i];
      }
    }
  }

  /** Growing the tree by the next path keeps it the descriptor tree of the paths so far,
      at q. */
  lemma GrowDescribesAt(t: DescrNode, paths: seq<seq<string>>, p: seq<string>, q: seq<string>)
    requires p != [] && DescribesAt(t, paths, q)
    ensures DescribesAt(Grow(t, [], p), paths + [p], q)
  {
    GrowFind(t, [], p, q);
    AlongAppend(q, paths, p);
    assert [] + q == q;
    if q == [] {
      assert Find(Grow(t, [], p), q) == Some(Grow(t, [], p)) && Find(t, q) == Some(t);
    }
  }

  /** property_paths: every name split at its dots. */
  function PathsOf(names: seq<string>): (r: seq<seq<string>>)
    ensures |r| == |names| && forall i :: 0 <= i < |names| ==> r[i] == Split(names[i], '.')
  {
    seq(|names|, i requires 0 <= i < |names| => Split(names[i], '.'))
  }

  /** The constructor's loop over the names, growing the tree from the root by each name's
      path in turn. */
  method BuildDescrTree(paths: seq<seq<string>>) returns (root: DescrNode)
    requires forall i :: 0 <= i < |paths| ==> paths[i] != []
    ensures Describes(root, paths)
  {
    root := DescrRoot;
    var k := 0;
    forall q ensures DescribesAt(root, paths[..0], q) {
      if q != [] && q[0] in root.children {
        assert false;
      }
    }
    while k < |paths|
      invariant 0 <= k <= |paths|
      invariant Describes(root, paths[..k])
    {
      var before := root;
      root := Grow(root, [], paths[k]);
      ghost var grown := paths[..k + 1];
      assert grown == paths[..k] + [paths[k]];
      forall q ensures DescribesAt(root, grown, q) {
        GrowDescribesAt(before, paths[..k], paths[k], q);
      }
      k := k + 1;
    }
    assert paths[..k] == paths;
  }

  /** The full name of a seen node is one of the names, so the node has a column. */
  lemma SeenHasColumn(root: DescrNode, names: seq<string>, q: seq<string>)
    requires Describes(root, PathsOf(names))
    requires Find(root, q).Some? && Find(root, q).value.isSeen
    ensures Find(root, q).value.fullName in names
  {
    assert DescribesAt(root, PathsOf(names), q);
    var i :| 0 <= i < |names| && q == PathsOf(names)[i];
    JoinSplit(names[i], '.');
  }

  /** Every name's path leads to a seen node whose full name is the name. */
  lemma NameHasNode(root: DescrNode, names: seq<string>, i: nat)
    requires Describes(root, PathsOf(names)) && i < |names|
    ensures var q := PathsOf(names)[i];
            Find(root, q).Some? && Find(root, q).value.isSeen && Find(root, q).value.fullName == names[i]
  {
    var q := PathsOf(names)[i];
    assert DescribesAt(root, PathsOf(names), q);
    assert q <= q && q != [];
    assert Along(q, PathsOf(names));
    JoinSplit(names[i], '.');
  }

  /** Following one more component from a node is looking it up among the node's children. */
  lemma {:induction false} FindChild(t: DescrNode, q: seq<string>, k: string)
    ensures Find(t, q + [k]) == if Find(t, q).Some? && k in Find(t, q).value.children
                                then Some(Find(t, q).value.children[k]) else None
    decreases |q|
  {
    if q == [] {
      assert [] + [k] == [k];
      assert Find(t, [k]) == (if k in t.children then Find(t.children[k], []) else None);
    } else {
      assert (q + [k])[0] == q[0] && (q + [k])[1..] == q[1..] + [k];
      if q[0] in t.children {
        FindChild(t.children[q[0]], q[1..], k);
      }
    }
  }

  /** A node is a leaf exactly when no path continues past it. */
  lemma LeafIffLast(root: DescrNode, paths: seq<seq<string>>, q: seq<string>)
    requires Describes(root, paths) && Find(root, q).Some?
    ensures IsLeaf(Find(root, q).value) <==> !exists i :: 0 <= i < |paths| && q < paths[i]
  {
    var d := Find(root, q).value;
    if !IsLeaf(d) {
      var k :| k in d.children;
      FindChild(root, q, k);
      assert DescribesAt(root, paths, q + [k]);
      var i :| 0 <= i < |paths| && q + [k] != [] && q + [k] <= paths[i];
      assert q < paths[i];
    }
    if exists i :: 0 <= i < |paths| && q < paths[i] {
      var i :| 0 <= i < |paths| && q < paths[i];
      var k := paths[i][|q|];
      assert q + [k] <= paths[i];
      FindChild(root, q, k);
      assert DescribesAt(root, paths, q + [k]);
    }
  }

  // ---------------------------------------------------------------------------------------
  // The instance trees

  /** getattr(obj, name) as a fixed partial function: None where it raises AttributeError,
      otherwise the attribute's value, itself None for a Python None. */
  type Getattr<!E> = (E, string) -> Option<Option<E>>

  /** A PropertyInstTreeLeafPropNode or PropertyInstTreeIntermediatePropNode, with the value
      of the attribute it stands for. A leaf reads that value from its owner on every access;
      with attributes a fixed function this is the value it had when it was attached. */
  datatype InstNode<E> = Leaf(value: Option<E>) | Intermediate(value: Option<E>, children: map<string, InstNode<E>>)

  /** The children the attach of a node with descriptor d and value v makes: one for each
      child descriptor whose attribute the value has, a leaf for a leaf descriptor and an
      intermediate node, with children of its own, otherwise. A value that is None has no
      children. */
  function Instances<E>(d: DescrNode, v: Option<E>, get: Getattr<E>): map<string, InstNode<E>>
    decreases d
  {
    if v.None? then map[]
    else
      map cname | cname in d.children && get(v.value, cname).Some? ::
        var w := get(v.value, cname).value;
        if IsLeaf(d.children[cname]) then Leaf(w) else Intermediate(w, Instances(d.children[cname], w, get))
  }

  /** What the attributes say lies at the end of the path pp from the value v: None when
      some attribute on the way is missing (a None value has none), otherwise the value. */
  function Resolve<E>(get: Getattr<E>, v: Option<E>, pp: seq<string>): Option<Option<E>>
    decreases |pp|
  {
    if pp == [] then Some(v)
    else if v.Some? && get(v.value, pp[0]).Some? then Resolve(get, get(v.value, pp[0]).value, pp[1..])
    else None
  }

  /** The Python None a missing path reads as, or the value found. */
  function Flatten<E>(r: Option<Option<E>>): Option<E> {
    if r.None? then None else r.value
  }

  /** path_exists(pp) below a node with the given children: the first component must have a
      child; an intermediate child with nothing left of the path, and a leaf, answer True. */
  function PathExists<E>(nodes: map<string, InstNode<E>>, pp: seq<string>): bool
    requires pp != []
    decreases |pp|
  {
    if pp[0] !in nodes then false
    else match nodes[pp[0]]
      case Leaf(_) => true
      case Intermediate(_, children) => pp[1..] == [] || PathExists(children, pp[1..])
  }

  /** rec_get(pp) below a node with the given children: None (Python's None) for a missing
      component, otherwise the value at the end of the path. */
  function RecGet<E>(nodes: map<string, InstNode<E>>, pp: seq<string>): Option<E>
    requires pp != []
    decreases |pp|
  {
    if pp[0] !in nodes then None
    else match nodes[pp[0]]
      case Leaf(value) => value
      case Intermediate(value, children) => if pp[1..] == [] then value else RecGet(children, pp[1..])
  }

  /** rec_set(pp, x) below a node with the given children whose value is owner: None (False)
      for a missing component, otherwise the attribute write to the last component's owner.
      A node whose value is None has no children, so the lookup below it fails. */
  function RecSet<E>(nodes: map<string, InstNode<E>>, owner: E, pp: seq<string>, x: E): Option<AttributeWrite<E>>
    requires pp != []
    decreases |pp|
  {
    if pp[0] !in nodes then None
    else match nodes[pp[0]]
      case Leaf(_) => Some(SetAttribute(owner, pp[0], x))
      case Intermediate(value, children) =>
        if pp[1..] == [] then Some(SetAttribute(owner, pp[0], x))
        else if value.None? then None
        else RecSet(children, value.value, pp[1..], x)
  }

  /** Along a path of the descriptor tree, the instance tree of a value has the path exactly
      when the attributes reach its end, and rec_get reads the value there (None when they
      do not reach it). */
  lemma {:induction false} InstancesResolve<E>(d: DescrNode, v: Option<E>, get: Getattr<E>, pp: seq<string>)
    requires pp != [] && Find(d, pp).Some?
    ensures PathExists(Instances(d, v, get), pp) <==> Resolve(get, v, pp).Some?
    ensures RecGet(Instances(d, v, get), pp) == Flatten(Resolve(get, v, pp))
    decreases |pp|
  {
    var nodes := Instances(d, v, get);
    if v.Some? && get(v.value, pp[0]).Some? {
      var cd := d.children[pp[0]];
      var w := get(v.value, pp[0]).value;
      assert pp[0] in nodes;
      if IsLeaf(cd) {
        assert nodes[pp[0]] == Leaf(w);
      } else {
        assert nodes[pp[0]] == Intermediate(w, Instances(cd, w, get));
        if pp[1..] != [] {
          InstancesResolve(cd, w, get, pp[1..]);
        }
      }
    } else {
      assert pp[0] !in nodes;
    }
  }

  /** Along a path of the descriptor tree, rec_set on the instance tree of an element writes
      exactly when the attributes reach the path's end, and then writes the value to the last
      component of the object that the rest of the path leads to. */
  lemma {:induction false} RecSetResolves<E>(d: DescrNode, e: E, get: Getattr<E>, pp: seq<string>, x: E)
    requires pp != [] && Find(d, pp).Some?
    ensures var w := RecSet(Instances(d, Some(e), get), e, pp, x);
            (w.Some? <==> Resolve(get, Some(e), pp).Some?) &&
            (w.Some? ==> w.value.name == pp[|pp| - 1] && w.value.value == x &&
                         Resolve(get, Some(e), pp[..|pp| - 1]) == Some(Some(w.value.target)))
    decreases |pp|
  {
    var nodes := Instances(d, Some(e), get);
    if get(e, pp[0]).Some? {
      var cd := d.children[pp[0]];
      var w := get(e, pp[0]).value;
      assert pp[0] in nodes;
      if IsLeaf(cd) {
        assert nodes[pp[0]] == Leaf(w);
        assert pp[..|pp| - 1] == [];
      } else {
        assert nodes[pp[0]] == Intermediate(w, Instances(cd, w, get));
        if pp[1..] == [] {
          assert pp[..|pp| - 1] == [];
        } else if w.Some? {
          RecSetResolves(cd, w.value, get, pp[1..], x);
          assert pp[..|pp| - 1] == [pp[0]] + pp[1..][..|pp[1..]| - 1];
          assert pp[1..][|pp[1..]| - 1] == pp[|pp| - 1];
        } else {
          assert Resolve(get, w, pp[1..]) == None;
        }
      }
    } else {
      assert pp[0] !in nodes;
    }
  }

  /** A PropertyInstTreeElementNode: its instance count and its children. */
  datatype ElementNode<E> = ElementNode(count: nat, children: map<string, InstNode<E>>)

  /** The instance tree root of one model: an element node per attached element. */
  class InstanceTree<E(==)> {
    /** The model's descriptor tree. */
    const descr: DescrNode
    /** Attribute lookup. */
    const get: Getattr<E>
    /** `_property_inst_tree_root.children`. */
    var nodes: map<E, ElementNode<E>>
    /** The elements attached and not yet detached. */
    ghost var attached: multiset<E>

    /** Exactly the attached elements have nodes, each counting its element's instances and
        holding the element's instance tree. */
    ghost predicate Valid()
      reads this
    {
      nodes.Keys == Elements(attached) &&
      (forall e :: e in nodes ==> nodes[e] == ElementNode(attached[e], Instances(descr, Some(e), get)))
    }

    constructor (descr: DescrNode, get: Getattr<E>)
      ensures this.descr == descr && this.get == get
      ensures Valid() && attached == multiset{} && nodes == map[]
    {
      this.descr := descr;
      this.get := get;
      nodes := map[];
      attached := multiset{};
    }

    /** `_attach_elements([e])`: the element's node is made and registered on the first
        attach, with the children its attributes allow; a later attach only counts. */
    method AttachOne(e: E)
      requires Valid()
      modifies this
      ensures Valid() && attached == old(attached) + multiset{e}
      ensures old(attached)[e] == 0 ==> nodes == old(nodes)[e := ElementNode(1, Instances(descr, Some(e), get))]
      ensures old(attached)[e] > 0 ==> nodes == old(nodes)[e := old(nodes)[e].(count := old(nodes)[e].count + 1)]
    {
      ElementsAdd(attached, e);
      if e in nodes {
        nodes := nodes[e := nodes[e].(count := nodes[e].count + 1)];
      } else {
        nodes := nodes[e := ElementNode(1, Instances(descr, Some(e), get))];
      }
      attached := attached + multiset{e};
    }

    /** `_detach_elements([e])` for an attached element: the last detach detaches the node's
        children and removes the node; an earlier one only counts. */
    method DetachOne(e: E)
      requires Valid() && e in attached
      modifies this
      ensures Valid() && attached == old(attached) - multiset{e}
      ensures old(attached)[e] == 1 ==> nodes == old(nodes) - {e}
      ensures old(attached)[e] > 1 ==> nodes == old(nodes)[e := old(nodes)[e].(count := old(nodes)[e].count - 1)]
    {
      ElementsRemove(attached, e);
      var node := nodes[e];
      if node.count == 1 {
        nodes := nodes - {e};
      } else {
        nodes := nodes[e := node.(count := node.count - 1)];
      }
      attached := attached - multiset{e};
    }

    /** Attaching the next of elements, the ones before it attached already. */
    method AttachNext(ghost m: multiset<E>, elements: seq<E>, i: nat)
      requires Valid() && i < |elements| && attached == m + multiset(elements[..i])
      modifies this
      ensures Valid() && attached == m + multiset(elements[..i + 1])
    {
      assert elements[..i + 1] == elements[..i] + [elements[i]];
      AttachOne(elements[i]);
    }

    /** `_attach_elements`. */
    method Attach(elements: seq<E>)
      requires Valid()
      modifies this
      ensures Valid() && attached == old(attached) + multiset(elements)
    {
      ghost var m := attached;
      var i := 0;
      assert elements[..0] == [];
      while i < |elements|
        invariant 0 <= i <= |elements|
        invariant Valid() && attached == m + multiset(elements[..i])
      {
        AttachNext(m, elements, i);
        i := i + 1;
      }
      assert elements[..i] == elements;
    }

    /** Detaching the next of elements, the ones before it detached already. */
    method DetachNext(ghost m: multiset<E>, elements: seq<E>, i: nat)
      requires Valid() && i < |elements| && multiset(elements) <= m && attached == m - multiset(elements[..i])
      modifies this
      ensures Valid() && attached == m - multiset(elements[..i + 1])
    {
      assert elements[..i + 1] == elements[..i] + [elements[i]];
      assert multiset(elements) == multiset(elements[..i + 1]) + multiset(elements[i + 1..]) by {
        assert elements == elements[..i + 1] + elements[i + 1..];
      }
      DetachOne(elements[i]);
    }

    /** `_detach_elements`, for elements that are attached. */
    method Detach(elements: seq<E>)
      requires Valid() && multiset(elements) <= attached
      modifies this
      ensures Valid() && attached == old(attached) - multiset(elements)
    {
      ghost var m := attached;
      var i := 0;
      assert elements[..0] == [];
      while i < |elements|
        invariant 0 <= i <= |elements|
        invariant Valid() && attached == m - multiset(elements[..i])
      {
        DetachNext(m, elements, i);
        i := i + 1;
      }
      assert elements[..i] == elements;
    }

    /** The bookkeeping `_on_inserted`, `_on_replaced` and `_on_removed` do for the post-change
        signal e of a list whose contents were before: the departed elements detached, then
        the arrived ones attached. */
    method Follow(ghost before: seq<E>, e: Event<E>)
      requires Valid() && attached == multiset(before) && Fits(before, e)
      modifies this
      ensures Valid() && attached == multiset(Apply(before, e))
    {
      assert multiset(Departed(e)) <= multiset(before) by {
        ApplyElements(before, e);
      }
      Detach(Departed(e));
      Attach(Arrived(e));
      assert attached == multiset(Apply(before, e)) by {
        ApplyElements(before, e);
        BagShift(multiset(before), multiset(Departed(e)), multiset(Arrived(e)), multiset(Apply(before, e)));
      }
    }

    /** Every signal a list emits, handled in order. */
    method FollowAll(ghost l: seq<E>, evs: seq<Event<E>>)
      requires Valid() && attached == multiset(l) && Replay(l, evs).Some?
      modifies this
      ensures Valid() && attached == multiset(Replay(l, evs).value)
    {
      var i := 0;
      ghost var cur := l;
      while i < |evs|
        invariant 0 <= i <= |evs|
        invariant Valid() && attached == multiset(cur)
        invariant Replay(cur, evs[i..]) == Replay(l, evs)
      {
        assert evs[i..][0] == evs[i] && evs[i..][1..] == evs[i + 1..];
        if !IsPre(evs[i]) {
          Follow(cur, evs[i]);
          cur := Apply(cur, evs[i]);
        }
        i := i + 1;
      }
    }
  }

  // ---------------------------------------------------------------------------------------
  // The model

  /** What the constructor accepts: at least one name, no empty name and no name twice. */
  predicate ValidNames(names: seq<string>) {
    |names| > 0 && (forall i :: 0 <= i < |names| ==> names[i] != []) && NoDuplicates(names)
  }

  class RecursivePropertyTableModel<E(==)> {
    /** property_names. */
    const names: seq<string>
    /** property_paths. */
    const paths: seq<seq<string>>
    /** property_columns. */
    const columns: map<string, nat>
    /** `_property_inst_tree_root`, over `_property_descr_tree_root`. */
    const tree: InstanceTree<E>
    /** The list shown, if any. */
    var list: Option<SignalingList<E>>
    /** Every dataChanged emitted by the model's list slots, in order. */
    var changes: seq<DataChange>
    /** Every attribute write set_cell performs, in order. */
    var writes: seq<AttributeWrite<E>>

    /** The list's contents; none without a list. */
    function Items(): seq<E>
      reads this, Shown()
    {
      if list.Some? then list.value.items else []
    }

    function Shown(): set<object>
      reads this
    {
      if list.Some? then {list.value} else {}
    }

    /** The paths are the names split at their dots, and the descriptor tree is theirs. */
    ghost predicate Shaped() {
      paths == PathsOf(names) && Describes(tree.descr, paths)
    }

    /** The instance tree holds a node for every element of the list, counting its
        instances. */
    ghost predicate Tracks()
      reads this, tree, Shown()
    {
      tree.Valid() && tree.attached == multiset(Items())
    }

    constructor Init(names: seq<string>, paths: seq<seq<string>>, descr: DescrNode, get: Getattr<E>)
      ensures this.names == names && this.paths == paths && columns == Columns(names)
      ensures fresh(tree) && tree.descr == descr && tree.get == get
      ensures list.None? && changes == [] && writes == [] && Tracks()
    {
      this.names := names;
      this.paths := paths;
      columns := Columns(names);
      tree := new InstanceTree(descr, get);
      list := None;
      changes := [];
      writes := [];
    }

    /** RecursivePropertyTableModel(property_names, signaling_list): ValueError unless there
        is at least one name, no name is empty and no name is given twice; then the paths,
        the columns and the descriptor tree, and the list taken. */
    static method New(names: seq<string>, v: Option<SignalingList<E>>, get: Getattr<E>)
      returns (r: Result<RecursivePropertyTableModel<E>, PyError>)
      ensures r.Failure? <==> !ValidNames(names)
      ensures r.Failure? ==> r.error == ValueError
      ensures r.Success? ==> fresh(r.value) && fresh(r.value.tree) && r.value.names == names && r.value.list == v
      ensures r.Success? ==> r.value.Shaped() && r.value.Tracks() && r.value.tree.get == get
      ensures r.Success? ==> r.value.columns.Keys == NameSet(names) && forall i :: 0 <= i < |names| ==> r.value.columns[names[i]] == i
    {
      if |names| == 0 || exists i :: 0 <= i < |names| && names[i] == [] {
        return Failure(ValueError);
      }
      DuplicateCheck(names);
      if |NameSet(names)| != |names| {
        return Failure(ValueError);
      }
      ColumnsOfDistinct(names);
      var paths := PathsOf(names);
      var descr := BuildDescrTree(paths);
      var m := new RecursivePropertyTableModel.Init(names, paths, descr, get);
      m.SetList(v);
      r := Success(m);
    }

    /** rowCount: no rows without a list, otherwise one per element. */
    function RowCount(): (r: nat)
      reads this, Shown()
      ensures list.None? ==> r == 0
      ensures list.Some? ==> r == |list.value.items|
    {
      if list.None? then 0 else |list.value.items|
    }

    /** columnCount: one column per property name. */
    function ColumnCount(): (r: nat)
      ensures r == |names|
    {
      |names|
    }

    /** The element of a row and the path of a column, in the order get_cell and set_cell
        look them up: no list, a row out of range (IndexError), an element without a node
        (KeyError), a column out of range or an empty path (IndexError). */
    function Locate(row: int, column: int): (r: Result<(E, seq<string>), ModelError>)
      reads this, Shown(), tree
      ensures r.Success? ==> r.value.0 in tree.nodes && r.value.1 != []
      ensures list.None? ==> r == Failure(NoList)
      ensures list.Some? && 0 <= row < |list.value.items| && 0 <= column < |paths| && r.Success? ==>
                r.value == (list.value.items[row], paths[column])
    {
      if list.None? then Failure(NoList)
      else
        var k := PyIndex(|list.value.items|, row);
        if k.None? then Failure(Raised(IndexError))
        else
          var e := list.value.items[k.value];
          if e !in tree.nodes then Failure(MissingKey)
          else
            var c := PyIndex(|paths|, column);
            if c.None? || paths[c.value] == [] then Failure(Raised(IndexError))
            else Success((e, paths[c.value]))
    }

    /** get_cell(row, column): rec_get of the column's path on the row's element node. */
    function GetCell(row: int, column: int): (r: Result<Option<E>, ModelError>)
      reads this, Shown(), tree
      ensures r.Failure? <==> Locate(row, column).Failure?
    {
      var at := Locate(row, column);
      if at.Failure? then Failure(at.error)
      else Success(RecGet(tree.nodes[at.value.0].children, at.value.1))
    }

    /** Whether the cell's path exists on the row's element node (what flags and data ask). */
    function CellExists(row: int, column: int): (r: Result<bool, ModelError>)
      reads this, Shown(), tree
      ensures r.Failure? <==> Locate(row, column).Failure?
    {
      var at := Locate(row, column);
      if at.Failure? then Failure(at.error)
      else Success(PathExists(tree.nodes[at.value.0].children, at.value.1))
    }

    /** Every element of the list has a node, and every node is an element of the list. */
    lemma NodesAreElements(e: E)
      requires Tracks()
      ensures e in tree.nodes <==> e in Items()
    {
    }

    /** With the model in shape, every cell of a row and a column in range is found, shows
        the value its path reaches on the row's element (None when it reaches none), and
        exists exactly when the path reaches a value. */
    lemma CellResolves(row: int, column: int)
      requires Shaped() && Tracks() && list.Some?
      requires 0 <= row < |list.value.items| && 0 <= column < |names|
      ensures var e := list.value.items[row];
              GetCell(row, column) == Success(Flatten(Resolve(tree.get, Some(e), paths[column]))) &&
              CellExists(row, column) == Success(Resolve(tree.get, Some(e), paths[column]).Some?)
    {
      var e := list.value.items[row];
      var pp := paths[column];
      assert e in multiset(Items());
      assert DescribesAt(tree.descr, paths, pp) && pp <= pp && Along(pp, paths);
      InstancesResolve(tree.descr, Some(e), tree.get, pp);
    }

    /** set_cell(row, column, x): rec_set of the column's path on the row's element node,
        answering whether it wrote. With the model in shape, for a row and a column in range
        it writes exactly when the path reaches a value, and writes x to the last component
        of the object the rest of the path reaches. */
    method SetCell(row: int, column: int, x: E) returns (r: Result<bool, ModelError>)
      modifies this
      ensures list == old(list) && changes == old(changes)
      ensures r.Failure? <==> Locate(row, column).Failure?
      ensures r.Failure? ==> r.error == Locate(row, column).error
      ensures r != Success(true) ==> writes == old(writes)
      ensures r == Success(true) ==> |writes| == |old(writes)| + 1 && writes[..|old(writes)|] == old(writes)
      ensures Shaped() && Tracks() && list.Some? && 0 <= row < |list.value.items| && 0 <= column < |names| ==>
                var e := list.value.items[row];
                var pp := paths[column];
                r == Success(Resolve(tree.get, Some(e), pp).Some?) &&
                (r == Success(true) ==>
                   var w := writes[|writes| - 1];
                   w.name == pp[|pp| - 1] && w.value == x && Resolve(tree.get, Some(e), pp[..|pp| - 1]) == Some(Some(w.target)))
    {
      var at := Locate(row, column);
      if at.Failure? {
        return Failure(at.error);
      }
      var e := at.value.0;
      var w := RecSet(tree.nodes[e].children, e, at.value.1, x);
      if Shaped() && Tracks() && list.Some? && 0 <= row < |list.value.items| && 0 <= column < |names| {
        WriteResolves(row, column, x);
      }
      if w.None? {
        return Success(false);
      }
      writes := writes + [w.value];
      r := Success(true);
    }

    lemma WriteResolves(row: int, column: int, x: E)
      requires Shaped() && Tracks() && list.Some?
      requires 0 <= row < |list.value.items| && 0 <= column < |names|
      ensures Locate(row, column) == Success((list.value.items[row], paths[column]))
      ensures var e := list.value.items[row];
              var pp := paths[column];
              var w := RecSet(tree.nodes[e].children, e, pp, x);
              (w.Some? <==> Resolve(tree.get, Some(e), pp).Some?) &&
              (w.Some? ==> w.value.name == pp[|pp| - 1] && w.value.value == x &&
                           Resolve(tree.get, Some(e), pp[..|pp| - 1]) == Some(Some(w.value.target)))
    {
      var e := list.value.items[row];
      var pp := paths[column];
      assert e in multiset(Items());
      assert DescribesAt(tree.descr, paths, pp) && pp <= pp && Along(pp, paths);
      RecSetResolves(tree.descr, e, tree.get, pp, x);
    }

    /** The signaling_list setter: a different list (or None) detaches every element of the
        old list, so that no element node remains, then attaches every element of the new
        one. */
    method SetList(v: Option<SignalingList<E>>)
      requires Tracks()
      modifies this, tree
      ensures list == v && Tracks()
      ensures v == old(list) ==> tree.nodes == old(tree.nodes)
      ensures changes == old(changes) && writes == old(writes)
    {
      if v == list {
        return;
      }
      if list.Some? {
        tree.Detach(list.value.items);
      }
      assert tree.nodes == map[] by {
        assert Elements(tree.attached) == {};
      }
      list := v;
      if v.Some? {
        tree.Attach(v.value.items);
      }
    }

    /** The slots for the signal e of the list whose contents were before. A post-change
        slot (`_on_inserted`, `_on_replaced`, `_on_removed`) does the bookkeeping, then, for a
        replacement, dataChanged over the rows replaced in every column; min() of no indexes
        raises ValueError after the bookkeeping. A pre-change slot (`_on_inserting`,
        `_on_removing`) only tells Qt and changes nothing here, except that `_on_removing`
        computes min() of its indexes first and so raises ValueError for none, as clear() of
        an empty list sends. */
    method OnSignal(ghost before: seq<E>, e: Event<E>) returns (err: Option<ModelError>)
      requires tree.Valid() && tree.attached == multiset(before) && (IsPre(e) || Fits(before, e))
      modifies this, tree
      ensures list == old(list) && writes == old(writes)
      ensures tree.Valid() && tree.attached == multiset(if IsPre(e) then before else Apply(before, e))
      ensures IsPre(e) ==> tree.nodes == old(tree.nodes)
      ensures err.Some? <==> (e.Replaced? || e.Removing?) && e.idxs == []
      ensures err.Some? ==> err.value == Raised(ValueError)
      ensures changes == old(changes) +
                if e.Replaced? && e.idxs != [] then [DataChanged(SeqMin(e.idxs), 0, SeqMax(e.idxs), |names| - 1)] else []
    {
      err := None;
      if IsPre(e) {
        if e.Removing? && e.idxs == [] {
          err := Some(Raised(ValueError));
        }
        return;
      }
      tree.Follow(before, e);
      if e.Replaced? {
        if e.idxs == [] {
          return Some(Raised(ValueError));
        }
        changes := changes + [DataChanged(SeqMin(e.idxs), 0, SeqMax(e.idxs), |names| - 1)];
      }
    }

    /** removeRows(row, count): deletes the rows row .. row + count - 1 and answers True; a
        slice deletion never raises IndexError, so the False answer is never given. The list's
        signals reach the model's slots, which keep the element nodes. Without a list the
        deletion raises (a TypeError). */
    method RemoveRows(row: int, count: int) returns (r: Result<bool, ModelError>)
      requires Tracks()
      modifies Shown(), tree
      ensures list.None? ==> r == Failure(NoList)
      ensures list.Some? ==> r == Success(true) && Tracks() &&
                             list.value.items == PyList.DelSlice(old(list.value.items), Span(row, row + count)).value
      ensures list.Some? ==> list.value.events == old(list.value.events) + DelSliceSignals(old(list.value.items), Span(row, row + count))
    {
      if list.None? {
        return Failure(NoList);
      }
      var l := list.value;
      var before := l.items;
      var emitted := |l.events|;
      var err := l.DelSlice(Span(row, row + count));
      var evs := l.events[emitted..];
      DelSliceReplays(before, Span(row, row + count));
      assert evs == DelSliceSignals(before, Span(row, row + count));
      tree.FollowAll(before, evs);
      r := Success(true);
    }
  }
}
