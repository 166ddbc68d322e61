/**
 The configuration as the manager keeps it: nested mappings that are updated in place.

 A ghost layout says which mapping object stands at which path; the tree it spells out is what the
 properties of `Configuration` speak about.
 */
module ConfigurationStore {
  import opened Common
  import opened Configuration

  /** What a mapping holds under a key. */
  datatype Item<V> = Scalar(value: V) | Nested(mapping: Mapping<V>)

  class Mapping<V> {
    var entries: map<string, Item<V>>

    constructor ()
      ensures entries == map[]
    {
      entries := map[];
    }
  }

  ghost predicate Fits<V>(item: Item<V>, l: Layout<V>) {
    match l
    case Flat(v) => item == Scalar(v)
    case Tree(at, _) => item == Nested(at)
  }

  datatype Layout<V> = Flat(value: V) | Tree(at: Mapping<V>, below: map<string, Layout<V>>)

  /** The mapping objects of a layout. */
  ghost function Cells<V>(l: Layout<V>): set<Mapping<V>> {
    if l.Flat? then {} else {l.at} + (set k, c | k in l.below && c in Cells(l.below[k]) :: c)
  }

  /** The heap holds what the layout says. */
  ghost predicate Lies<V>(l: Layout<V>)
    reads Cells(l)
  {
    l.Tree? ==>
      && l.at.entries.Keys == l.below.Keys
      && forall k | k in l.below :: Fits(l.at.entries[k], l.below[k]) && Lies(l.below[k])
  }

  /** No mapping object stands at two places. */
  ghost predicate Separated<V>(l: Layout<V>) {
    l.Tree? ==>
      && (forall k | k in l.below :: l.at !in Cells(l.below[k]) && Separated(l.below[k]))
      && (forall j, k | j in l.below && k in l.below && j != k :: Cells(l.below[j]) !! Cells(l.below[k]))
  }

  /** The tree of values a layout spells out. */
  ghost function Value<V>(l: Layout<V>): Node<V> {
    match l
    case Flat(v) => Leaf(v)
    case Tree(_, below) => Dict(map k | k in below :: Value(below[k]))
  }

  ghost function At<V>(l: Layout<V>, path: Path): Option<Layout<V>> {
    if path == [] then Some(l)
    else if l.Tree? && path[0] in l.below then At(l.below[path[0]], path[1..])
    else None
  }

  lemma {:induction false} AtIsLookup<V>(l: Layout<V>, path: Path)
    ensures Lookup(Value(l), path) == if At(l, path).None? then None else Some(Value(At(l, path).value))
    decreases |path|
  {
    if path != [] && l.Tree? && path[0] in l.below {
      AtIsLookup(l.below[path[0]], path[1..]);
    }
  }

  /** The layout with `child` under `key` in the mapping at `path`. */
  ghost function Graft<V>(l: Layout<V>, path: Path, key: string, child: Layout<V>): Layout<V>
    requires At(l, path).Some? && At(l, path).value.Tree?
    decreases |path|
  {
    if path == [] then Tree(l.at, l.below[key := child])
    else Tree(l.at, l.below[path[0] := Graft(l.below[path[0]], path[1..], key, child)])
  }

  lemma {:induction false} AtIsWithin<V>(l: Layout<V>, path: Path)
    requires At(l, path).Some?
    ensures Cells(At(l, path).value) <= Cells(l)
    ensures Separated(l) ==> Separated(At(l, path).value)
    decreases |path|
  {
    if path != [] {
      AtIsWithin(l.below[path[0]], path[1..]);
    }
  }

  lemma EmptyLies<V>(m: Mapping<V>)
    requires m.entries == map[]
    ensures var l := Tree(m, map[]); Lies(l) && Separated(l) && Cells(l) == {m} && Value(l) == Dict(map[])
  {
    assert Value(Tree(m, map[])).entries == map[];
  }

  lemma AtIsCell<V>(l: Layout<V>, path: Path)
    requires At(l, path).Some? && At(l, path).value.Tree?
    ensures At(l, path).value.at in Cells(l)
  {
    AtIsWithin(l, path);
  }

  lemma {:induction false} AtLies<V>(l: Layout<V>, path: Path)
    requires At(l, path).Some? && Lies(l)
    ensures Lies(At(l, path).value)
    decreases |path|
  {
    if path != [] {
      AtLies(l.below[path[0]], path[1..]);
    }
  }

  lemma {:induction false} GraftIsPut<V>(l: Layout<V>, path: Path, key: string, child: Layout<V>)
    requires At(l, path).Some? && At(l, path).value.Tree?
    ensures IsDict(Lookup(Value(l), path))
    ensures Value(Graft(l, path, key, child)) == Put(Value(l), path, key, Value(child))
    decreases |path|
  {
    AtIsLookup(l, path);
    if path == [] {
      assert Value(Graft(l, path, key, child)).entries == Value(l).entries[key := Value(child)];
    } else {
      GraftIsPut(l.below[path[0]], path[1..], key, child);
      assert Value(Graft(l, path, key, child)).entries == Put(Value(l), path, key, Value(child)).entries;
    }
  }

  lemma {:induction false} GraftIsThere<V>(l: Layout<V>, path: Path, key: string, child: Layout<V>)
    requires At(l, path).Some? && At(l, path).value.Tree?
    ensures At(Graft(l, path, key, child), path + [key]) == Some(child)
    decreases |path|
  {
    if path == [] {
      assert (path + [key])[0] == key && (path + [key])[1..] == [];
    } else {
      GraftIsThere(l.below[path[0]], path[1..], key, child);
      assert (path + [key])[1..] == path[1..] + [key];
    }
  }

  lemma {:induction false} GraftIsSeparated<V>(l: Layout<V>, path: Path, key: string, child: Layout<V>)
    requires At(l, path).Some? && At(l, path).value.Tree?
    requires Separated(l) && Separated(child) && Cells(l) !! Cells(child)
    ensures var g := Graft(l, path, key, child);
      Separated(g) && Cells(g) <= Cells(l) + Cells(child) && l.Tree? && g.Tree? && g.at == l.at
    decreases |path|
  {
    if path != [] {
      GraftIsSeparated(l.below[path[0]], path[1..], key, child);
    }
  }

  lemma {:induction false} CellsExist<V>(l: Layout<V>)
    ensures forall o <- Cells(l) :: allocated(o)
    decreases l
  {
    if l.Tree? {
      forall k | k in l.below
        ensures forall o <- Cells(l.below[k]) :: allocated(o)
      {
        CellsExist(l.below[k]);
      }
    }
  }

  twostate lemma {:induction false} StaysPut<V>(l: Layout<V>)
    requires old(Lies(l))
    requires forall o <- Cells(l) :: old(allocated(o)) && o.entries == old(o.entries)
    ensures Lies(l)
    decreases l
  {
    if l.Tree? {
      forall k | k in l.below
        ensures Lies(l.below[k])
      {
        assert Cells(l.below[k]) <= Cells(l);
        StaysPut(l.below[k]);
      }
    }
  }

  lemma LiesTogether<V>(l: Layout<V>, below: map<string, Layout<V>>)
    requires l.Tree? && l.at.entries.Keys == below.Keys
    requires forall k | k in below :: Fits(l.at.entries[k], below[k]) && Lies(below[k])
    ensures Lies(Tree(l.at, below))
  {}

  /** Storing an item in one mapping object changes the layout at that place and nowhere else. */
  twostate lemma {:induction false} StoreGrafts<V>(l: Layout<V>, new path: Path, new at: Mapping<V>,
        new key: string, new item: Item<V>, new child: Layout<V>)
    requires At(l, path).Some? && At(l, path).value.Tree? && At(l, path).value.at == at
    requires old(Lies(l)) && Separated(l) && Fits(item, child) && Lies(child)
    requires old(allocated(at)) && at.entries == old(at.entries)[key := item]
    requires forall o <- Cells(l) :: old(allocated(o)) && (o == at || o.entries == old(o.entries))
    ensures Lies(Graft(l, path, key, child))
    decreases |path|
  {
    var first := if path == [] then key else path[0];
    var part := child;
    if path != [] {
      AtIsWithin(l.below[first], path[1..]);
      assert Cells(l.below[first]) <= Cells(l);
      StoreGrafts(l.below[first], path[1..], at, key, item, child);
      part := Graft(l.below[first], path[1..], key, child);
    }
    forall k | k in l.below && k != first
      ensures Lies(l.below[k])
    {
      assert Cells(l.below[k]) <= Cells(l);
      StaysPut(l.below[k]);
    }
    LiesTogether(l, l.below[first := part]);
  }

  lemma {:induction false} EntryAt<V>(l: Layout<V>, path: Path, key: string)
    requires Lies(l) && At(l, path).Some? && At(l, path).value.Tree? && key in At(l, path).value.at.entries
    ensures At(l, path + [key]).Some? && Fits(At(l, path).value.at.entries[key], At(l, path + [key]).value)
    decreases |path|
  {
    if path == [] {
      assert (path + [key])[0] == key && (path + [key])[1..] == [];
    } else {
      EntryAt(l.below[path[0]], path[1..], key);
      assert (path + [key])[1..] == path[1..] + [key];
    }
  }

  /** The walk changes nothing about the assignment to come. */
  lemma WalkStep<V>(l: Layout<V>, path: Path, value: Node<V>, i: nat)
    requires Lies(l) && l.Tree? && i < |path| - 1 && At(l, path[..i]).Some? && At(l, path[..i]).value.Tree?
    ensures IsDict(Lookup(Value(l), path[..i]))
    ensures path[i] !in At(l, path[..i]).value.at.entries ==>
      Assign(Put(Value(l), path[..i], path[i], Dict(map[])), path, value) == Assign(Value(l), path, value)
  {
    AtIsLookup(l, path[..i]);
    AtLies(l, path[..i]);
    if path[i] !in At(l, path[..i]).value.at.entries {
      AssignCreates(Value(l), path, value, i);
    }
  }

  lemma OnePartMore(path: Path, i: nat)
    requires i < |path|
    ensures path[..i] + [path[i]] == path[..i + 1]
  {}

  lemma WalkRaises<V>(n: Node<V>, path: Path, value: Node<V>, i: nat)
    requires n.Dict? && i < |path| && IsLeaf(Lookup(n, path[..i]))
    ensures Assign(n, path, value).None?
  {
    AssignRaises(n, path, value);
  }

  lemma WalkEnds<V>(l: Layout<V>, path: Path, stored: Layout<V>)
    requires l.Tree? && path != []
    requires var way := path[..|path| - 1]; At(l, way).Some? && At(l, way).value.Tree?
    ensures var way, key := path[..|path| - 1], path[|path| - 1];
      && Assign(Value(l), path, Value(stored)) == Some(Value(Graft(l, way, key, stored)))
      && At(Graft(l, way, key, stored), path) == Some(stored)
  {
    var way, key := path[..|path| - 1], path[|path| - 1];
    GraftIsPut(l, way, key, stored);
    AssignStores(Value(l), path, Value(stored));
    GraftIsThere(l, way, key, stored);
    assert way + [key] == path;
  }

  class ConfigurationManager<V> {
    var data: Mapping<V>
    ghost var layout: Layout<V>

    ghost predicate Valid()
      reads this, Cells(layout)
    {
      layout.Tree? && layout.at == data && Lies(layout) && Separated(layout)
    }

    ghost function Contents(): (n: Node<V>)
      reads this
    {
      Value(layout)
    }

    constructor ()
      ensures Valid() && fresh(Cells(layout)) && Contents() == Dict(map[])
    {
      data := new Mapping();
      layout := Tree(data, map[]);
    }

    /** Copies a value out, so that later assignments do not show in it. */
    static function Copy(item: Item<V>, ghost l: Layout<V>): (n: Node<V>)
      requires Lies(l) && Fits(item, l)
      reads Cells(l)
      ensures n == Value(l)
      decreases l
    {
      match item
      case Scalar(v) => Leaf(v)
      case Nested(mapping) =>
        var entries := map k | k in mapping.entries :: Copy(mapping.entries[k], l.below[k]);
        assert entries == Value(l).entries;
        Dict(entries)
    }

    method Get(path: Path, default: Node<V>) returns (r: Node<V>)
      requires Valid()
      ensures r == var found := Lookup(Contents(), path); if found.None? then default else found.value
    {
      var node: Item<V> := Nested(data);
      ghost var l := layout;
      for i := 0 to |path|
        invariant Lies(l) && Fits(node, l)
        invariant Lookup(Contents(), path) == Lookup(Value(l), path[i..])
      {
        if node.Scalar? || path[i] !in node.mapping.entries {
          return default;
        }
        node, l := node.mapping.entries[path[i]], l.below[path[i]];
      }
      r := Copy(node, l);
    }

    /** One assignment to an entry of the mapping that stands at `path`. */
    method Store(node: Mapping<V>, key: string, item: Item<V>, ghost path: Path, ghost child: Layout<V>)
      requires Valid() && At(layout, path).Some? && At(layout, path).value.Tree? && At(layout, path).value.at == node
      requires Fits(item, child) && Lies(child) && Separated(child) && Cells(layout) !! Cells(child)
      modifies `layout, node
      ensures Valid() && layout == Graft(old(layout), path, key, child)
      ensures node.entries == old(node.entries)[key := item]
    {
      hide Graft, Separated, Lies;
      AtIsWithin(layout, path);
      AtIsCell(layout, path);
      CellsExist(layout);
      CellsExist(child);
      node.entries := node.entries[key := item];
      StaysPut(child);
      StoreGrafts(layout, path, node, key, item, child);
      GraftIsSeparated(layout, path, key, child);
      layout := Graft(layout, path, key, child);
    }

    /** The mapping that the walk along `path` has come to. */
    ghost predicate Stands(node: Mapping<V>, path: Path)
      reads this
    {
      At(layout, path).Some? && At(layout, path).value.Tree? && At(layout, path).value.at == node
    }

    /** The entry under `key`, an empty mapping being stored there first if there is none. */
    method SetDefault(node: Mapping<V>, key: string, ghost path: Path) returns (item: Item<V>)
      requires Valid() && Stands(node, path)
      modifies `layout, node
      ensures Valid() && (forall o <- Cells(layout) :: o in old(Cells(layout)) || fresh(o))
      ensures key in old(node.entries) ==> Contents() == old(Contents())
      ensures key !in old(node.entries) ==>
        && IsDict(Lookup(old(Contents()), path))
        && Contents() == Put(old(Contents()), path, key, Dict(map[]))
        && item.Nested? && item.mapping.entries == map[]
      ensures At(layout, path + [key]).Some? && Fits(item, At(layout, path + [key]).value)
    {
      hide Graft, Separated, Lies;
      CellsExist(layout);
      if key !in node.entries {
        var created := new Mapping<V>();
        ghost var child: Layout<V> := Tree(created, map[]);
        EmptyLies(created);
        GraftIsPut(layout, path, key, child);
        GraftIsThere(layout, path, key, child);
        GraftIsSeparated(layout, path, key, child);
        Store(node, key, Nested(created), path, child);
        item := Nested(created);
      } else {
        EntryAt(layout, path, key);
        item := node.entries[key];
      }
    }

    /** One step of the walk that an assignment of `v` at `path` makes. */
    method Descend(node: Mapping<V>, path: Path, i: nat, ghost v: Node<V>) returns (item: Item<V>)
      requires Valid() && i < |path| - 1 && Stands(node, path[..i])
      modifies `layout, node
      ensures Valid() && (forall o <- Cells(layout) :: o in old(Cells(layout)) || fresh(o))
      ensures Assign(Contents(), path, v) == Assign(old(Contents()), path, v)
      ensures item.Scalar? ==> Contents() == old(Contents()) && Assign(Contents(), path, v).None?
      ensures old(node.entries) == map[] ==> item.Nested? && item.mapping.entries == map[]
      ensures item.Nested? ==>
        && Stands(item.mapping, path[..i + 1]) && item.mapping in Cells(layout)
        && (Contents() == old(Contents()) || item.mapping.entries == map[])
    {
      WalkStep(layout, path, v, i);
      AtIsWithin(layout, path[..i]);
      item := SetDefault(node, path[i], path[..i]);
      OnePartMore(path, i);
      AtIsWithin(layout, path[..i + 1]);
      if item.Scalar? {
        AtIsLookup(layout, path[..i + 1]);
        WalkRaises(Contents(), path, v, i + 1);
      }
    }

    /** The walk to the mapping that holds the last part of `path`; None where it raises TypeError. */
    method Walk(path: Path, ghost v: Node<V>) returns (found: Option<Mapping<V>>)
      requires Valid() && path != []
      modifies this, Cells(layout)
      ensures Valid() && data == old(data)
      ensures (forall o <- Cells(layout) :: o in old(Cells(layout)) || fresh(o))
      ensures Assign(Contents(), path, v) == Assign(old(Contents()), path, v)
      ensures found.None? ==> Contents() == old(Contents()) && Assign(Contents(), path, v).None?
      ensures found.Some? ==> Stands(found.value, path[..|path| - 1]) && found.value in Cells(layout)
    {
      var node, i := data, 0;
      while i < |path| - 1
        invariant 0 <= i < |path| && Valid() && data == old(data)
        invariant Stands(node, path[..i]) && node in Cells(layout)
        invariant (forall o <- Cells(layout) :: o in old(Cells(layout)) || fresh(o))
        invariant Assign(Contents(), path, v) == Assign(old(Contents()), path, v)
        invariant Contents() == old(Contents()) || node.entries == map[]
      {
        var item := Descend(node, path, i, v);
        match item
        case Scalar(_) =>
          return None;
        case Nested(mapping) =>
          node, i := mapping, i + 1;
      }
      found := Some(node);
    }

    /**
     Stores `value`, the very object and no copy of it, at the end of the path. The answer is whether it could;
     otherwise it raises TypeError, and the whole tree is as before.
     */
    method Set(path: Path, value: Item<V>, ghost stored: Layout<V>) returns (ok: bool)
      requires Valid() && path != []
      requires Fits(value, stored) && Lies(stored) && Separated(stored) && Cells(layout) !! Cells(stored)
      modifies this, Cells(layout)
      ensures Valid() && data == old(data)
      ensures var after := Assign(old(Contents()), path, Value(stored));
        && ok == after.Some?
        && Contents() == if ok then after.value else old(Contents())
      ensures ok ==> At(layout, path) == Some(stored)
    {
      CellsExist(stored);
      var found := Walk(path, Value(stored));
      if found.None? {
        return false;
      }
      StaysPut(stored);
      WalkEnds(layout, path, stored);
      Store(found.value, path[|path| - 1], value, path[..|path| - 1], stored);
      ok := true;
    }
  }
}
