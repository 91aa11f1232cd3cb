/**
  From the colon-separated names of a parameter file to nested dictionaries, and from nested dictionaries
  to dotted names.
*/
module LaunchParamUtils {
  import opened Messages
  import opened Strings
  import opened Trees
  import opened YamlLines

  datatype Entry<V> = Entry(path: seq<string>, value: V)

  function Last(path: seq<string>): string
    requires path != []
  {
    path[|path| - 1]
  }

  // A missing key is set to the value if it is named like the last one, wherever it stands. None is the
  // error of looking for a key in a value.
  function Insert<V>(t: Tree<V>, path: seq<string>, last: string, value: V): Option<Tree<V>>
    decreases |path|
  {
    if path == [] then Some(t)
    else
      match t
      case Leaf(_) => None
      case Node(children) =>
        var missing := if path[0] == last then Leaf(value) else Empty();
        var child := if path[0] in children then children[path[0]] else missing;
        match Insert(child, path[1..], last, value)
        case None => None
        case Some(inserted) => Some(Node(children[path[0] := inserted]))
  }

  function Rebuild<V>(entries: seq<Entry<V>>): (r: Option<Tree<V>>)
    requires forall i :: 0 <= i < |entries| ==> entries[i].path != []
    ensures r.Some? ==> r.value.Node?
  {
    if entries == [] then Some(Empty())
    else
      var e := entries[|entries| - 1];
      match Rebuild(entries[..|entries| - 1])
      case None => None
      case Some(t) => Insert(t, e.path, Last(e.path), e.value)
  }

  // An insertion goes through exactly if every dictionary that is named like the leaf is there.
  ghost predicate NamesAreThere<V>(t: Tree<V>, path: seq<string>, last: string) {
    forall m :: 0 <= m < |path| - 1 && path[m] == last ==> HasNode(t, path[..m + 1])
  }

  lemma NamesAreThereBelow<V>(t: Tree<V>, child: Tree<V>, path: seq<string>, last: string)
    requires t.Node? && |path| > 1
    requires if path[0] in t.children then child == t.children[path[0]] else child == Empty()
    ensures NamesAreThere(t, path, last) <==>
              (path[0] == last ==> path[0] in t.children && child.Node?) && NamesAreThere(child, path[1..], last)
  {
    var rest := path[1..];
    forall m | 0 <= m < |path| - 1
      ensures HasNode(t, path[..m + 1]) <==> path[0] in t.children && HasNode(child, rest[..m])
    {
      assert path[..m + 1][0] == path[0] && path[..m + 1][1..] == rest[..m];
    }
    assert HasNode(t, path[..0 + 1]) <==> path[0] in t.children && HasNode(child, rest[..0]);
    if NamesAreThere(child, rest, last) {
      forall m | 0 < m < |path| - 1 && path[m] == last ensures HasNode(t, path[..m + 1]) {
        assert rest[m - 1] == last;
        assert HasNode(child, rest[..m - 1 + 1]);
      }
    }
    if NamesAreThere(t, path, last) {
      forall m | 0 <= m < |rest| - 1 && rest[m] == last ensures HasNode(child, rest[..m + 1]) {
        assert path[m + 1] == last;
        assert HasNode(t, path[..m + 1 + 1]);
      }
    }
  }

  // The tree with one more leaf, and the dictionaries above it.
  ghost predicate Extends<V(!new)>(t: Tree<V>, path: seq<string>, value: V, r: Tree<V>) {
    && (forall q :: At(r, q) == if q == path then Some(value) else At(t, q))
    && (forall q :: HasNode(r, q) <==> HasNode(t, q) || q < path)
  }

  lemma ExtendsAbove<V(!new)>(t: Tree<V>, child: Tree<V>, path: seq<string>, value: V, inserted: Tree<V>)
    requires t.Node? && path != [] && Extends(child, path[1..], value, inserted)
    requires if path[0] in t.children then child == t.children[path[0]] else child == Empty()
    ensures Extends(t, path, value, Node(t.children[path[0] := inserted]))
  {
    var r := Node(t.children[path[0] := inserted]);
    forall q: seq<string>
      ensures At(r, q) == if q == path then Some(value) else At(t, q)
      ensures HasNode(r, q) <==> HasNode(t, q) || q < path
    {
      if q != [] && q[0] == path[0] {
        assert q == [q[0]] + q[1..] && path == [path[0]] + path[1..];
        assert At(r, q) == At(inserted, q[1..]);
        assert path[0] !in t.children ==> At(child, q[1..]) == None;
        assert q < path <==> q[1..] < path[1..];
      } else {
        assert q != path && (q < path <==> q == []);
      }
    }
  }

  lemma ExtendsByLeaf<V(!new)>(t: Tree<V>, path: seq<string>, value: V)
    requires t.Node? && |path| == 1 && path[0] !in t.children
    ensures Extends(t, path, value, Node(t.children[path[0] := Leaf(value)]))
  {
    var r := Node(t.children[path[0] := Leaf(value)]);
    forall q: seq<string>
      ensures At(r, q) == if q == path then Some(value) else At(t, q)
      ensures HasNode(r, q) <==> HasNode(t, q) || q < path
    {
      if q != [] {
        assert q == [q[0]] + q[1..];
      }
    }
  }

  lemma {:induction false} InsertSpec<V(!new)>(t: Tree<V>, path: seq<string>, value: V)
    requires path != [] && !Covers(t, path) && !HasNode(t, path)
    ensures var r := Insert(t, path, Last(path), value);
            && (r.Some? <==> NamesAreThere(t, path, Last(path)))
            && (r.Some? ==> Extends(t, path, value, r.value))
    decreases |path|
  {
    var last := Last(path);
    if |path| == 1 {
      ExtendsByLeaf(t, path, value);
    } else {
      var child := if path[0] in t.children then t.children[path[0]] else Empty();
      NamesAreThereBelow(t, child, path, last);
      if path[0] in t.children || path[0] != last {
        InsertSpec(child, path[1..], value);
        if Insert(child, path[1..], last, value).Some? {
          ExtendsAbove(t, child, path, value, Insert(child, path[1..], last, value).value);
        }
      }
    }
  }

  /**
    What an insertion does where something is already: at a value or a dictionary it changes nothing, so the
    new value is dropped, and below a value it is an error.
  */
  lemma {:induction false} InsertOverTaken<V>(t: Tree<V>, path: seq<string>, last: string, value: V)
    ensures At(t, path).Some? || HasNode(t, path) ==> Insert(t, path, last, value) == Some(t)
    ensures Covers(t, path) && At(t, path).None? ==> Insert(t, path, last, value).None?
    decreases |path|
  {
    if path != [] && t.Node? && path[0] in t.children {
      InsertOverTaken(t.children[path[0]], path[1..], last, value);
      assert t.children[path[0] := t.children[path[0]]] == t.children;
    }
  }

  ghost predicate PrefixFree<V>(entries: seq<Entry<V>>) {
    forall i, j :: 0 <= i < |entries| && 0 <= j < |entries| && i != j ==> !(entries[i].path <= entries[j].path)
  }

  // A dictionary above the leaf that is named like it comes with an earlier entry.
  ghost predicate NameSafe<V>(entries: seq<Entry<V>>, i: nat)
    requires i < |entries| && entries[i].path != []
  {
    var path := entries[i].path;
    forall m :: 0 <= m < |path| - 1 && path[m] == Last(path) ==> PrefixOfEarlier(entries, i, path[..m + 1])
  }

  ghost predicate PrefixOfEarlier<V>(entries: seq<Entry<V>>, n: nat, path: seq<string>)
    requires n <= |entries|
  {
    exists j :: 0 <= j < n && path < entries[j].path
  }

  ghost predicate NonEmptyPaths<V>(entries: seq<Entry<V>>) {
    forall i :: 0 <= i < |entries| ==> entries[i].path != []
  }

  // The tree has the entries as its leaves, and only the dictionaries above them.
  ghost predicate Holds<V(!new)>(t: Tree<V>, entries: seq<Entry<V>>) {
    && (forall i :: 0 <= i < |entries| ==> At(t, entries[i].path) == Some(entries[i].value))
    && (forall q :: At(t, q).Some? ==> exists i :: 0 <= i < |entries| && entries[i].path == q)
    && (forall q :: HasNode(t, q) <==> q == [] || PrefixOfEarlier(entries, |entries|, q))
  }

  // A path that is free of the entries' paths is free in their tree.
  lemma HoldsNothingOn<V(!new)>(t: Tree<V>, entries: seq<Entry<V>>, e: Entry<V>)
    requires Holds(t, entries) && PrefixFree(entries + [e]) && e.path != []
    ensures !Covers(t, e.path) && !HasNode(t, e.path)
  {
    var longer := entries + [e];
    CoversIsPrefix(t, e.path);
    forall i | 0 <= i < |entries| ensures !(entries[i].path <= e.path) && !(e.path <= entries[i].path) {
      assert longer[i] == entries[i] && longer[|entries|] == e;
    }
  }

  lemma HoldsOneMore<V(!new)>(t: Tree<V>, entries: seq<Entry<V>>, e: Entry<V>, r: Tree<V>)
    requires Holds(t, entries) && PrefixFree(entries + [e]) && Extends(t, e.path, e.value, r)
    ensures Holds(r, entries + [e])
  {
    var longer := entries + [e];
    forall i | 0 <= i < |longer| ensures At(r, longer[i].path) == Some(longer[i].value) {
      if i < |entries| {
        assert longer[i].path != longer[|entries|].path;
      }
    }
    forall q | At(r, q).Some? ensures exists i :: 0 <= i < |longer| && longer[i].path == q {
      if q == e.path {
        assert longer[|entries|].path == q;
      } else {
        var i :| 0 <= i < |entries| && entries[i].path == q;
        assert longer[i].path == q;
      }
    }
    forall q ensures HasNode(r, q) <==> q == [] || PrefixOfEarlier(longer, |longer|, q) {
      if PrefixOfEarlier(entries, |entries|, q) {
        var j :| 0 <= j < |entries| && q < entries[j].path;
        assert q < longer[j].path;
      }
      if q < e.path {
        assert q < longer[|entries|].path;
      }
    }
  }

  lemma SafeIsThere<V(!new)>(t: Tree<V>, entries: seq<Entry<V>>, e: Entry<V>)
    requires Holds(t, entries) && e.path != []
    ensures NamesAreThere(t, e.path, Last(e.path)) <==> NameSafe(entries + [e], |entries|)
  {
    var longer := entries + [e];
    forall q: seq<string> | q != []
      ensures HasNode(t, q) <==> PrefixOfEarlier(longer, |entries|, q)
    {
      if PrefixOfEarlier(entries, |entries|, q) {
        var j :| 0 <= j < |entries| && q < entries[j].path;
        assert q < longer[j].path;
      }
      if PrefixOfEarlier(longer, |entries|, q) {
        var j :| 0 <= j < |entries| && q < longer[j].path;
        assert q < entries[j].path;
      }
    }
    assert longer[|entries|] == e;
  }

  // Safety of an entry is a matter of the entries before it.
  lemma SafeBefore<V>(entries: seq<Entry<V>>, n: nat, i: nat)
    requires i < n <= |entries| && NonEmptyPaths(entries)
    ensures NameSafe(entries[..n], i) <==> NameSafe(entries, i)
  {
  }

  lemma {:induction false} RebuildSpec<V(!new)>(entries: seq<Entry<V>>)
    requires NonEmptyPaths(entries) && PrefixFree(entries)
    ensures Rebuild(entries).Some? <==> forall i :: 0 <= i < |entries| ==> NameSafe(entries, i)
    ensures Rebuild(entries).Some? ==> Holds(Rebuild(entries).value, entries)
  {
    if entries != [] {
      var n := |entries| - 1;
      var init, e := entries[..n], entries[n];
      assert entries == init + [e];
      RebuildSpec(init);
      forall i | 0 <= i < n ensures NameSafe(init, i) <==> NameSafe(entries, i) {
        SafeBefore(entries, n, i);
      }
      if Rebuild(init).Some? {
        var t := Rebuild(init).value;
        HoldsNothingOn(t, init, e);
        InsertSpec(t, e.path, e.value);
        SafeIsThere(t, init, e);
        if Rebuild(entries).Some? {
          HoldsOneMore(t, init, e, Rebuild(entries).value);
        }
      }
    }
  }

  /**
    The rebuilt dictionaries have every entry at its path exactly if no path begins another one and every
    dictionary above a leaf that is named like it comes with an earlier entry. The rebuilding looks for
    the name of the leaf, not for its place.
  */
  lemma RebuildIsFaithful<V(!new)>(entries: seq<Entry<V>>)
    requires NonEmptyPaths(entries)
    requires forall i, j :: 0 <= i < j < |entries| ==> entries[i].path != entries[j].path
    ensures (Rebuild(entries).Some? &&
             forall i :: 0 <= i < |entries| ==> At(Rebuild(entries).value, entries[i].path) == Some(entries[i].value))
            <==> PrefixFree(entries) && forall i :: 0 <= i < |entries| ==> NameSafe(entries, i)
  {
    if PrefixFree(entries) {
      RebuildSpec(entries);
    } else if Rebuild(entries).Some? {
      var t := Rebuild(entries).value;
      var i, j :| 0 <= i < |entries| && 0 <= j < |entries| && i != j && entries[i].path <= entries[j].path;
      if At(t, entries[i].path).Some? && At(t, entries[j].path).Some? {
        LeavesAreApart(t, entries[i].path, entries[j].path);
      }
    }
  }

  /** A single leaf that is named like a dictionary above it is not rebuilt. */
  lemma RepeatedNameIsAnError<V(!new)>(value: V)
    ensures Rebuild([Entry(["a", "b", "a"], value)]).None?
    ensures Rebuild([Entry(["a", "x"], value), Entry(["a", "b", "a"], value)]).Some?
  {
  }

  // The names of a parsed file, in the order of the dictionary.
  function Entries<V>(d: Dict, coerce: string -> V, n: nat): (entries: seq<Entry<V>>)
    requires n <= |d.order| && forall key :: key in d.order ==> key in d.values
    ensures |entries| == n && forall i :: 0 <= i < n ==> entries[i].path != []
  {
    seq(n, i requires 0 <= i < n => Entry(Split(d.order[i], ':'), coerce(d.values[d.order[i]])))
  }

  method RegenerateYamlFile<V>(d: Dict, coerce: string -> V) returns (r: Option<Tree<V>>)
    requires Listed(d)
    ensures r == Rebuild(Entries(d, coerce, |d.order|))
  {
    var final: Tree<V> := Empty();
    for i := 0 to |d.order|
      invariant Rebuild(Entries(d, coerce, i)) == Some(final)
    {
      var path := Split(d.order[i], ':');
      var inserted := Insert(final, path, Last(path), coerce(d.values[d.order[i]]));
      assert Entries(d, coerce, i + 1)[..i] == Entries(d, coerce, i);
      assert Rebuild(Entries(d, coerce, i + 1)) == inserted;
      if inserted.None? {
        ErrorsOfRebuildStay(Entries(d, coerce, |d.order|), i + 1);
        assert Entries(d, coerce, |d.order|)[..i + 1] == Entries(d, coerce, i + 1);
        return None;
      }
      final := inserted.value;
    }
    r := Some(final);
  }

  lemma {:induction false} ErrorsOfRebuildStay<V>(entries: seq<Entry<V>>, n: nat)
    requires NonEmptyPaths(entries) && n <= |entries|
    ensures Rebuild(entries[..n]).None? ==> Rebuild(entries).None?
    decreases |entries|
  {
    if n < |entries| {
      assert entries[..|entries| - 1][..n] == entries[..n];
      ErrorsOfRebuildStay(entries[..|entries| - 1], n);
    } else {
      assert entries[..n] == entries;
    }
  }

  // The dictionaries of a document; None is an error.
  ghost function Read<V>(lines: seq<Line>, coerce: string -> V): (r: Option<Tree<V>>)
    ensures r.Some? ==> r.value.Node?
  {
    match Parse(lines)
    case None => None
    case Some(p) =>
      ParsedAreListed(lines);
      Rebuild(Entries(p.data, coerce, |p.data.order|))
  }

  method ReadCompleteYamlText<V>(lines: seq<Line>, coerce: string -> V) returns (r: Option<Tree<V>>)
    ensures r == Read(lines, coerce)
  {
    var d := MergeYamlKeys(lines);
    if d.None? {
      return None;
    }
    ParsedAreListed(lines);
    r := RegenerateYamlFile(d.value, coerce);
  }
}
