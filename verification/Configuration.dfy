/**
 Nested settings: the layered merge, and reading and writing one value by its dotted path.

 A path is the list of its parts. A value that is not a mapping is a leaf, lists included.
 */
module Configuration {
  import opened Common

  datatype Node<V> = Leaf(value: V) | Dict(entries: map<string, Node<V>>)

  type Path = seq<string>

  /** The value at a path, if every part of it is there. */
  function Lookup<V>(n: Node<V>, path: Path): Option<Node<V>> {
    if path == [] then Some(n)
    else if n.Dict? && path[0] in n.entries then Lookup(n.entries[path[0]], path[1..])
    else None
  }

  predicate IsLeaf<V>(r: Option<Node<V>>) { r.Some? && r.value.Leaf? }

  predicate IsDict<V>(r: Option<Node<V>>) { r.Some? && r.value.Dict? }

  /** Something that is not a mapping sits strictly before the end of the path. */
  ghost predicate Blocked<V>(n: Node<V>, path: Path) {
    exists i :: 0 <= i < |path| && IsLeaf(Lookup(n, path[..i]))
  }

  lemma LookupSplits<V>(n: Node<V>, path: Path, i: nat)
    requires i <= |path|
    ensures Lookup(n, path) ==
      if Lookup(n, path[..i]).None? then None else Lookup(Lookup(n, path[..i]).value, path[i..])
    decreases i
  {
    if i > 0 && n.Dict? && path[0] in n.entries {
      LookupSplits(n.entries[path[0]], path[1..], i - 1);
      assert path[..i][1..] == path[1..][..i - 1] && path[1..][i - 1..] == path[i..];
    } else if i == 0 {
      assert path[0..] == path;
    }
  }

  /** What blocks a path below its first part blocks the rest of the path in the entry there, and conversely. */
  lemma BlockedBelow<V>(n: Node<V>, path: Path)
    requires path != [] && n.Dict?
    ensures Blocked(n, path) <==> path[0] in n.entries && Blocked(n.entries[path[0]], path[1..])
  {
    if path[0] in n.entries {
      var child, rest := n.entries[path[0]], path[1..];
      forall i | 0 < i < |path|
        ensures Lookup(n, path[..i]) == Lookup(child, rest[..i - 1])
      {
        assert path[..i][1..] == rest[..i - 1];
      }
      if Blocked(child, rest) {
        var i :| 0 <= i < |rest| && IsLeaf(Lookup(child, rest[..i]));
        assert IsLeaf(Lookup(n, path[..i + 1]));
      }
      if Blocked(n, path) {
        var i :| 0 <= i < |path| && IsLeaf(Lookup(n, path[..i]));
        assert IsLeaf(Lookup(child, rest[..i - 1]));
      }
    } else {
      forall i | 0 < i < |path|
        ensures Lookup(n, path[..i]).None?
      {
      }
    }
  }

  lemma LeafBlocks<V>(n: Node<V>, path: Path)
    requires path != [] && n.Leaf?
    ensures Blocked(n, path)
  {
    assert IsLeaf(Lookup(n, path[..0]));
  }

  // ---------- merge ----------

  function Merge<V>(base: Node<V>, override: Node<V>): (merged: Node<V>)
    requires base.Dict? && override.Dict?
    ensures merged.Dict?
    decreases override
  {
    Dict(map key | key in base.entries.Keys + override.entries.Keys ::
      if key !in override.entries then base.entries[key]
      else if override.entries[key].Dict? && key in base.entries && base.entries[key].Dict? then
        Merge(base.entries[key], override.entries[key])
      else override.entries[key])
  }

  /** Where two trees are laid over each other: mappings merge, everything else is replaced. */
  function Over<V>(base: Node<V>, override: Node<V>): Node<V> {
    if base.Dict? && override.Dict? then Merge(base, override) else override
  }

  /**
   What a merge reads at a path, whatever the path. In particular, a leaf of the override is read as it is;
   a path the override neither defines nor blocks reads the base; a path it blocks reads nothing.
   */
  lemma {:induction false} MergeReads<V>(base: Node<V>, override: Node<V>, path: Path)
    ensures Lookup(Over(base, override), path) ==
      var b, o := Lookup(base, path), Lookup(override, path);
      if o.Some? then (if b.Some? then Some(Over(b.value, o.value)) else o)
      else if Blocked(override, path) then None
      else b
    decreases |path|
  {
    if path != [] {
      if override.Leaf? {
        LeafBlocks(override, path);
      } else {
        BlockedBelow(override, path);
        var k := path[0];
        if base.Dict? && k in base.entries && k in override.entries {
          MergeReads(base.entries[k], override.entries[k], path[1..]);
        }
      }
    }
  }

  /** Merging the same override a second time changes nothing. */
  lemma {:induction false} MergeIsIdempotent<V>(base: Node<V>, override: Node<V>)
    ensures Over(Over(base, override), override) == Over(base, override)
    decreases override
  {
    if override.Dict? {
      forall k | k in override.entries
        ensures Over(override.entries[k], override.entries[k]) == override.entries[k]
        ensures base.Dict? && k in base.entries ==>
          Over(Over(base.entries[k], override.entries[k]), override.entries[k])
          == Over(base.entries[k], override.entries[k])
      {
        MergeIsIdempotent(override.entries[k], override.entries[k]);
        MergeWithItself(override.entries[k]);
        if base.Dict? && k in base.entries {
          MergeIsIdempotent(base.entries[k], override.entries[k]);
        }
      }
      MergeWithItself(override);
      if base.Dict? {
        var once := Merge(base, override);
        assert Merge(once, override).entries == once.entries;
      }
    }
  }

  lemma {:induction false} MergeWithItself<V>(n: Node<V>)
    ensures Over(n, n) == n
    decreases n
  {
    if n.Dict? {
      forall k | k in n.entries
        ensures Over(n.entries[k], n.entries[k]) == n.entries[k]
      {
        MergeWithItself(n.entries[k]);
      }
      assert Merge(n, n).entries == n.entries;
    }
  }

  /** The layers of a reload, laid over the built-in defaults from the first to the last. */
  function Layered<V>(defaults: Node<V>, layers: seq<Node<V>>): Node<V> {
    if layers == [] then defaults
    else Over(Layered(defaults, layers[..|layers| - 1]), layers[|layers| - 1])
  }

  /** A layer leaves a path to the layers before it. */
  ghost predicate Silent<V>(layer: Node<V>, path: Path) {
    Lookup(layer, path).None? && !Blocked(layer, path)
  }

  /** The last layer that says anything about a path decides it, if what it says is a leaf. */
  lemma {:induction false} LastLayerDecides<V>(defaults: Node<V>, layers: seq<Node<V>>, i: nat, path: Path)
    requires i < |layers| && IsLeaf(Lookup(layers[i], path))
    requires forall j :: i < j < |layers| ==> Silent(layers[j], path)
    ensures Lookup(Layered(defaults, layers), path) == Lookup(layers[i], path)
    decreases |layers|
  {
    var last := |layers| - 1;
    MergeReads(Layered(defaults, layers[..last]), layers[last], path);
    if i < last {
      assert Silent(layers[last], path);
      LastLayerDecides(defaults, layers[..last], i, path);
    }
  }

  // ---------- set ----------

  /** The tree with `child` stored under `key` in the mapping at `path`. */
  function Put<V>(n: Node<V>, path: Path, key: string, child: Node<V>): (r: Node<V>)
    requires IsDict(Lookup(n, path))
    ensures r.Dict?
    decreases |path|
  {
    if path == [] then Dict(n.entries[key := child])
    else Dict(n.entries[path[0] := Put(n.entries[path[0]], path[1..], key, child)])
  }

  /** Assigning at a path, creating the mappings on the way; None for the TypeError. */
  function Assign<V>(n: Node<V>, path: Path, value: Node<V>): (r: Option<Node<V>>)
    requires n.Dict? && path != []
    ensures r.Some? ==> r.value.Dict?
    decreases |path|
  {
    if |path| == 1 then Some(Dict(n.entries[path[0] := value]))
    else
      var child := if path[0] in n.entries then n.entries[path[0]] else Dict(map[]);
      if child.Leaf? then None
      else
        var below := Assign(child, path[1..], value);
        if below.None? then None else Some(Dict(n.entries[path[0] := below.value]))
  }

  /** It raises exactly when something that is not a mapping is in the way. */
  lemma {:induction false} AssignRaises<V>(n: Node<V>, path: Path, value: Node<V>)
    requires n.Dict? && path != []
    ensures Assign(n, path, value).None? <==> Blocked(n, path)
    decreases |path|
  {
    BlockedBelow(n, path);
    if |path| > 1 {
      var rest := path[1..];
      if path[0] !in n.entries {
        var empty: Node<V> := Dict(map[]);
        AssignRaises(empty, rest, value);
        BlockedBelow(empty, rest);
      } else if n.entries[path[0]].Leaf? {
        LeafBlocks(n.entries[path[0]], rest);
      } else {
        AssignRaises(n.entries[path[0]], rest, value);
      }
    } else if path[0] in n.entries {
      assert !Blocked(n.entries[path[0]], path[1..]);
    }
  }

  predicate Unrelated(p: Path, q: Path) {
    !(p <= q) && !(q <= p)
  }

  /**
   What is read after an assignment: at and below the path the assigned value, above it mappings, and
   everywhere else what was there before.
   */
  lemma {:induction false} AssignReads<V>(n: Node<V>, path: Path, value: Node<V>, q: Path)
    requires n.Dict? && path != [] && Assign(n, path, value).Some?
    ensures var after := Lookup(Assign(n, path, value).value, q);
      && (path <= q ==> after == Lookup(value, q[|path|..]))
      && (q < path ==> IsDict(after))
      && (Unrelated(path, q) ==> after == Lookup(n, q))
    decreases |path|
  {
    if q != [] && q[0] == path[0] {
      var rest := path[1..];
      assert path == [path[0]] + rest && q == [q[0]] + q[1..];
      assert (path <= q <==> rest <= q[1..]) && (q <= path <==> q[1..] <= rest);
      if |path| > 1 {
        var child := if path[0] in n.entries then n.entries[path[0]] else Dict(map[]);
        AssignReads(child, rest, value, q[1..]);
        if path <= q {
          assert q[1..][|rest|..] == q[|path|..];
        }
      } else {
        assert q[1..] == q[|path|..];
      }
    }
  }

  /** A tree that holds one value, at the end of a path. */
  function Single<V>(path: Path, value: Node<V>): Node<V> {
    if path == [] then value else Dict(map[path[0] := Single(path[1..], value)])
  }

  /** Laying `override` over `base` leaves nothing of `base`. */
  predicate Covered<V>(base: Node<V>, override: Node<V>)
    decreases base
  {
    base.Dict? && override.Dict? ==>
      forall k | k in base.entries :: k in override.entries && Covered(base.entries[k], override.entries[k])
  }

  lemma {:induction false} CoveredIsReplaced<V>(base: Node<V>, override: Node<V>)
    ensures Over(base, override) == override <==> Covered(base, override)
    decreases base
  {
    if base.Dict? && override.Dict? {
      var merged := Merge(base, override).entries;
      forall k | k in base.entries && k in override.entries
        ensures merged[k] == override.entries[k] <==> Covered(base.entries[k], override.entries[k])
      {
        CoveredIsReplaced(base.entries[k], override.entries[k]);
        assert merged[k] == Over(base.entries[k], override.entries[k]);
      }
      if Covered(base, override) {
        assert merged == override.entries;
      }
    }
  }

  /** Nothing of what stands at the path would survive a merge with `value`. */
  predicate Replaces<V>(n: Node<V>, path: Path, value: Node<V>) {
    Lookup(n, path).Some? ==> Covered(Lookup(n, path).value, value)
  }

  /**
   Assigning a value is merging the tree that holds nothing else if and only if nothing is in the way and nothing
   of what stands at the path would survive the merge; for a leaf the second condition holds in any case.
   */
  lemma {:induction false} AssignIsMerge<V>(n: Node<V>, path: Path, value: Node<V>)
    requires n.Dict? && path != []
    ensures Assign(n, path, value) == Some(Merge(n, Single(path, value))) <==>
            !Blocked(n, path) && Replaces(n, path, value)
    ensures value.Leaf? ==> (Assign(n, path, value) == Some(Merge(n, Single(path, value))) <==> !Blocked(n, path))
    decreases |path|
  {
    hide Blocked, Merge, Assign;
    AssignRaises(n, path, value);
    if !Blocked(n, path) {
      var k, rest := path[0], path[1..];
      var child := if k in n.entries then n.entries[k] else Dict(map[]);
      MergesAtKey(n, path, value);
      BlockedBelow(n, path);
      if |path| > 1 {
        if k in n.entries && child.Leaf? {
          LeafBlocks(child, rest);
        }
        AssignBelow(n, path, value, child);
        AssignIsMerge(child, rest, value);
        MergeIntoNothing(Single(rest, value));
        UpdatesDiffer(n.entries, k, Assign(child, rest, value).value, Over(child, Single(rest, value)));
      } else {
        AssignHere(n, path, value);
        CoveredIsReplaced(child, value);
        UpdatesDiffer(n.entries, k, value, if k in n.entries then Over(child, value) else value);
      }
    }
  }

  lemma UpdatesDiffer<V>(m: map<string, Node<V>>, key: string, x: Node<V>, y: Node<V>)
    ensures m[key := x] == m[key := y] <==> x == y
  {
    assert m[key := x][key] == x && m[key := y][key] == y;
  }

  lemma AssignHere<V>(n: Node<V>, path: Path, value: Node<V>)
    requires n.Dict? && |path| == 1
    ensures Assign(n, path, value) == Some(Dict(n.entries[path[0] := value]))
    ensures Replaces(n, path, value) <==> (path[0] in n.entries ==> Covered(n.entries[path[0]], value))
    ensures Single(path[1..], value) == value
  {
    assert path[1..] == [];
    if path[0] in n.entries {
      assert Lookup(n, path) == Lookup(n.entries[path[0]], path[1..]) == Some(n.entries[path[0]]);
    }
  }

  /** Merging the tree that holds one value touches one entry. */
  lemma MergesAtKey<V>(n: Node<V>, path: Path, value: Node<V>)
    requires n.Dict? && path != []
    ensures var below := Single(path[1..], value);
            Merge(n, Single(path, value)) ==
            Dict(n.entries[path[0] := if path[0] in n.entries then Over(n.entries[path[0]], below) else below])
  {
    var below := Single(path[1..], value);
    var entry := if path[0] in n.entries then Over(n.entries[path[0]], below) else below;
    assert Merge(n, Single(path, value)).entries == n.entries[path[0] := entry];
  }

  lemma AssignBelow<V>(n: Node<V>, path: Path, value: Node<V>, child: Node<V>)
    requires n.Dict? && |path| > 1 && !Blocked(n, path) && child.Dict?
    requires child == if path[0] in n.entries then n.entries[path[0]] else Dict(map[])
    ensures !Blocked(child, path[1..])
    ensures Assign(child, path[1..], value).Some?
    ensures Assign(n, path, value) == Some(Dict(n.entries[path[0] := Assign(child, path[1..], value).value]))
    ensures Replaces(n, path, value) <==> Replaces(child, path[1..], value)
  {
    BlockedBelow(n, path);
    AssignRaises(n, path, value);
    AssignRaises(child, path[1..], value);
  }

  lemma MergeIntoNothing<V>(n: Node<V>)
    requires n.Dict?
    ensures Merge(Dict(map[]), n) == n
  {
    assert Merge(Dict(map[]), n).entries == n.entries;
  }

  lemma AssignsApart<V>(n: Node<V>, p: Path, v: Node<V>, q: Path, w: Node<V>)
    requires n.Dict? && p != [] && q != [] && p[0] != q[0]
    requires Assign(n, p, v).Some? && Assign(n, q, w).Some?
    ensures var a, b := Assign(n, p, v).value, Assign(n, q, w).value;
      && q[0] in b.entries && b.entries == n.entries[q[0] := b.entries[q[0]]]
      && Assign(a, q, w) == Some(Dict(a.entries[q[0] := b.entries[q[0]]]))
  {
  }

  lemma AssignsTogether<V>(n: Node<V>, p: Path, v: Node<V>, a: Node<V>, q: Path, w: Node<V>)
    requires n.Dict? && |p| > 1 && |q| > 1 && p[0] == q[0] && Assign(n, p, v) == Some(a)
    requires Assign(a.entries[p[0]], q[1..], w).Some?
    ensures Assign(a, q, w) == Some(Dict(n.entries[p[0] := Assign(a.entries[p[0]], q[1..], w).value]))
  {
    var both := Assign(a.entries[p[0]], q[1..], w).value;
    assert a.entries[p[0] := both] == n.entries[p[0] := both];
  }

  /** An assignment below a common first part is one in the entry there. */
  lemma AssignsInside<V>(n: Node<V>, path: Path, value: Node<V>)
    requires n.Dict? && |path| > 1 && Assign(n, path, value).Some?
    ensures var child := if path[0] in n.entries then n.entries[path[0]] else Dict(map[]);
            && child.Dict? && Assign(child, path[1..], value).Some?
            && Assign(n, path, value).value.entries[path[0]] == Assign(child, path[1..], value).value
  {
  }

  /** Assignments at unrelated paths can be made in either order. */
  lemma {:induction false} AssignsCommute<V>(n: Node<V>, p: Path, v: Node<V>, q: Path, w: Node<V>)
    requires n.Dict? && Unrelated(p, q) && Assign(n, p, v).Some? && Assign(n, q, w).Some?
    ensures Assign(Assign(n, p, v).value, q, w).Some?
    ensures Assign(Assign(n, p, v).value, q, w) == Assign(Assign(n, q, w).value, p, v)
    decreases |p|
  {
    hide Assign;
    var a, b := Assign(n, p, v).value, Assign(n, q, w).value;
    if p[0] == q[0] {
      assert p == [p[0]] + p[1..] && q == [q[0]] + q[1..];
      var child := if p[0] in n.entries then n.entries[p[0]] else Dict(map[]);
      AssignsInside(n, p, v);
      AssignsInside(n, q, w);
      AssignsCommute(child, p[1..], v, q[1..], w);
      AssignsTogether(n, p, v, a, q, w);
      AssignsTogether(n, q, w, b, p, v);
    } else {
      AssignsApart(n, p, v, q, w);
      AssignsApart(n, q, w, p, v);
      assert a.entries[q[0] := b.entries[q[0]]] == b.entries[p[0] := a.entries[p[0]]];
    }
  }

  /** Where all mappings on the way exist, assigning stores in the last of them. */
  lemma {:induction false} AssignStores<V>(n: Node<V>, path: Path, value: Node<V>)
    requires n.Dict? && path != [] && IsDict(Lookup(n, path[..|path| - 1]))
    ensures Assign(n, path, value) == Some(Put(n, path[..|path| - 1], path[|path| - 1], value))
    decreases |path|
  {
    if |path| > 1 {
      var way, rest := path[..|path| - 1], path[1..];
      assert way[0] == path[0] && way[1..] == rest[..|rest| - 1];
      assert IsDict(Lookup(n.entries[path[0]], way[1..]));
      AssignStores(n.entries[path[0]], rest, value);
    }
  }

  /** Creating the first missing mapping on the way beforehand makes no difference. */
  lemma {:induction false} AssignCreates<V>(n: Node<V>, path: Path, value: Node<V>, i: nat)
    requires n.Dict? && i < |path| - 1 && IsDict(Lookup(n, path[..i]))
    requires path[i] !in Lookup(n, path[..i]).value.entries
    ensures Assign(Put(n, path[..i], path[i], Dict(map[])), path, value) == Assign(n, path, value)
    decreases i
  {
    var k, rest := path[0], path[1..];
    if i == 0 {
      var empty: Node<V> := Dict(map[]);
      Overwrites(n.entries, k, empty, Assign(empty, rest, value));
    } else {
      var way := path[..i];
      assert way[0] == k && way[1..] == rest[..i - 1];
      AssignCreates(n.entries[k], rest, value, i - 1);
      var inner := Put(n.entries[k], rest[..i - 1], path[i], Dict(map[]));
      Overwrites(n.entries, k, inner, Assign(inner, rest, value));
    }
  }

  lemma Overwrites<V>(m: map<string, V>, key: string, first: V, second: Option<V>)
    ensures second.Some? ==> m[key := first][key := second.value] == m[key := second.value]
  {
  }
}
