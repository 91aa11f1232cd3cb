/** Nested dictionaries, and what is found in them along a path of keys. */
module Trees {
  import opened Messages

  datatype Tree<V> = Leaf(value: V) | Node(children: map<string, Tree<V>>)

  function Empty<V>(): Tree<V> {
    Node(map[])
  }

  // Some of the keys of a dictionary.
  function Part<V>(children: map<string, Tree<V>>, keys: set<string>): Tree<V> {
    Node(map k | k in children && k in keys :: children[k])
  }

  // The value of the leaf at the end of a path.
  function At<V>(t: Tree<V>, path: seq<string>): Option<V> {
    match t
    case Leaf(v) => if path == [] then Some(v) else None
    case Node(children) =>
      if path == [] || path[0] !in children then None else At(children[path[0]], path[1..])
  }

  // A path leads to a dictionary.
  predicate HasNode<V>(t: Tree<V>, path: seq<string>) {
    match t
    case Leaf(_) => false
    case Node(children) =>
      path == [] || (path[0] in children && HasNode(children[path[0]], path[1..]))
  }

  // A path leads to a dictionary with something in it.
  predicate HasFullNode<V>(t: Tree<V>, path: seq<string>) {
    match t
    case Leaf(_) => false
    case Node(children) =>
      if path == [] then children != map[] else path[0] in children && HasFullNode(children[path[0]], path[1..])
  }

  // A path leads to a leaf, or beyond one.
  predicate Covers<V>(t: Tree<V>, path: seq<string>) {
    match t
    case Leaf(_) => true
    case Node(children) => path != [] && path[0] in children && Covers(children[path[0]], path[1..])
  }

  /** A leaf covers exactly the paths that its own path begins. */
  lemma {:induction false} CoversIsPrefix<V>(t: Tree<V>, path: seq<string>)
    ensures Covers(t, path) <==> exists k :: 0 <= k <= |path| && At(t, path[..k]).Some?
  {
    if t.Leaf? {
      assert At(t, path[..0]).Some?;
    } else if path == [] || path[0] !in t.children {
      forall k | 0 <= k <= |path| ensures At(t, path[..k]).None? {
        assert k > 0 ==> path[..k][0] == path[0];
      }
    } else {
      var child, rest := t.children[path[0]], path[1..];
      CoversIsPrefix(child, rest);
      forall k | 0 < k <= |path| ensures At(t, path[..k]) == At(child, rest[..k - 1]) {
        assert path[..k][0] == path[0] && path[..k][1..] == rest[..k - 1];
      }
      assert At(t, path[..0]).None?;
      if k :| 0 <= k <= |rest| && At(child, rest[..k]).Some? {
        assert At(t, path[..k + 1]).Some?;
      }
    }
  }

  lemma LeavesAreCovered<V>(t: Tree<V>, path: seq<string>)
    requires At(t, path).Some?
    ensures Covers(t, path)
  {
  }

  // No leaf is below another one.
  lemma {:induction false} LeavesAreApart<V>(t: Tree<V>, path: seq<string>, longer: seq<string>)
    requires At(t, path).Some? && At(t, longer).Some? && path <= longer
    ensures path == longer
  {
    if t.Node? {
      LeavesAreApart(t.children[path[0]], path[1..], longer[1..]);
      assert path == [path[0]] + path[1..] && longer == [longer[0]] + longer[1..];
    }
  }

  lemma {:induction false} FullNodesAreNodes<V>(t: Tree<V>, path: seq<string>)
    ensures HasFullNode(t, path) ==> HasNode(t, path)
    decreases |path|
  {
    if t.Node? && path != [] && path[0] in t.children {
      FullNodesAreNodes(t.children[path[0]], path[1..]);
    }
  }

  // What is above a leaf is a dictionary with something in it.
  lemma {:induction false} LeafBelowIsFull<V>(t: Tree<V>, path: seq<string>, longer: seq<string>)
    requires At(t, longer).Some? && path < longer
    ensures HasFullNode(t, path)
    decreases |path|
  {
    if path != [] {
      LeafBelowIsFull(t.children[path[0]], path[1..], longer[1..]);
    }
  }
}
