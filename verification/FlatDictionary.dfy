/** Nested dictionaries flattened into dotted names. */
module FlatDictionary {
  import opened Messages
  import opened Strings
  import opened Trees
  import opened LaunchParamUtils

  function FlatName(prefix: string, path: seq<string>): string {
    RStrip(prefix + Terminated(path, '.'), '.')
  }

  // A leaf with a value has a name.
  ghost predicate Named<V>(t: Tree<V>, prefix: string, path: seq<string>, name: string, value: V) {
    FlatName(prefix, path) == name && At(t, path) == Some(value)
  }

  // Every leaf has its name.
  ghost predicate NamesAll<V(!new)>(t: Tree<V>, prefix: string, flat: map<string, V>) {
    forall path :: At(t, path).Some? ==> FlatName(prefix, path) in flat
  }

  // Every name has the value of a leaf that has it.
  ghost predicate NamesOnly<V(!new)>(t: Tree<V>, prefix: string, flat: map<string, V>) {
    forall name :: name in flat ==> exists path :: Named(t, prefix, path, name, flat[name])
  }

  ghost predicate IsFlat<V(!new)>(t: Tree<V>, prefix: string, flat: map<string, V>) {
    NamesAll(t, prefix, flat) && NamesOnly(t, prefix, flat)
  }

  lemma FlatNameBelow(prefix: string, key: string, path: seq<string>)
    ensures FlatName(prefix + key + ['.'], path) == FlatName(prefix, [key] + path)
  {
    assert ([key] + path)[1..] == path;
    assert prefix + Terminated([key] + path, '.') == prefix + key + ['.'] + Terminated(path, '.');
  }

  lemma FlatLeaf<V(!new)>(value: V, prefix: string)
    ensures IsFlat(Leaf(value), prefix, map[RStrip(prefix, '.') := value])
  {
    assert prefix + Terminated([], '.') == prefix;
    assert Named(Leaf(value), prefix, [], RStrip(prefix, '.'), value);
  }

  lemma PartAt<V>(children: map<string, Tree<V>>, keys: set<string>, path: seq<string>)
    ensures At(Part(children, keys), path) ==
              if path != [] && path[0] in keys && path[0] in children then At(children[path[0]], path[1..]) else None
  {
  }

  lemma AllMore<V(!new)>(children: map<string, Tree<V>>, done: set<string>, key: string, prefix: string,
                         flat: map<string, V>, child: map<string, V>)
    requires key in children && NamesAll(Part(children, done), prefix, flat)
    requires NamesAll(children[key], prefix + key + ['.'], child)
    ensures NamesAll(Part(children, done + {key}), prefix, flat + child)
  {
    var before, after := Part(children, done), Part(children, done + {key});
    forall path | At(after, path).Some? ensures FlatName(prefix, path) in flat + child {
      if path[0] == key {
        FlatNameBelow(prefix, key, path[1..]);
        assert path == [key] + path[1..];
        assert At(children[key], path[1..]).Some?;
      } else {
        assert At(before, path).Some?;
      }
    }
  }

  lemma OnlyMore<V(!new)>(children: map<string, Tree<V>>, done: set<string>, key: string, prefix: string,
                          flat: map<string, V>, child: map<string, V>)
    requires key in children && NamesOnly(Part(children, done), prefix, flat)
    requires NamesOnly(children[key], prefix + key + ['.'], child)
    ensures NamesOnly(Part(children, done + {key}), prefix, flat + child)
  {
    var before, after := Part(children, done), Part(children, done + {key});
    forall name | name in flat + child
      ensures exists path :: Named(after, prefix, path, name, (flat + child)[name])
    {
      if name in child {
        var path :| Named(children[key], prefix + key + ['.'], path, name, child[name]);
        FlatNameBelow(prefix, key, path);
        PartAt(children, done + {key}, [key] + path);
        assert ([key] + path)[1..] == path;
        assert (flat + child)[name] == child[name];
        assert Named(after, prefix, [key] + path, name, child[name]);
      } else {
        var path :| Named(before, prefix, path, name, flat[name]);
        PartAt(children, done, path);
        PartAt(children, done + {key}, path);
        assert (flat + child)[name] == flat[name];
        assert Named(after, prefix, path, name, flat[name]);
      }
    }
  }

  // The keys may be taken in any order.
  method Flatten<V(!new)>(t: Tree<V>, prefix: string) returns (flat: map<string, V>)
    ensures IsFlat(t, prefix, flat)
    decreases t
  {
    match t {
      case Leaf(value) =>
        FlatLeaf(value, prefix);
        flat := map[RStrip(prefix, '.') := value];
      case Node(children) =>
        flat := map[];
        var rest := children.Keys;
        ghost var done: set<string> := {};
        while rest != {}
          invariant done + rest == children.Keys && done !! rest
          invariant IsFlat(Part(children, done), prefix, flat)
        {
          var key :| key in rest;
          var child := Flatten(children[key], prefix + key + ['.']);
          AllMore(children, done, key, prefix, flat, child);
          OnlyMore(children, done, key, prefix, flat, child);
          flat := flat + child;
          done, rest := done + {key}, rest - {key};
        }
        assert Part(children, done) == t;
    }
  }

  function Leaves<V>(flat: map<string, V>): Tree<V> {
    Node(map name | name in flat :: Leaf(flat[name]))
  }

  lemma {:induction false} RStripOnce(s: string, c: char)
    ensures RStrip(RStrip(s, c), c) == RStrip(s, c)
  {
  }

  lemma RStripOf(s: string, c: char)
    ensures RStrip(s + [c], c) == RStrip(s, c)
    ensures s != "" && s[|s| - 1] != c ==> RStrip(s, c) == s
  {
  }

  // The name of a leaf is the name of itself.
  lemma NameOfName(path: seq<string>)
    ensures FlatName("", [FlatName("", path)]) == FlatName("", path)
  {
    var name := FlatName("", path);
    RStripOnce("" + Terminated(path, '.'), '.');
    assert "" + Terminated([name], '.') == name + ['.'];
    RStripOf(name, '.');
  }

  lemma NamesOfFlat<V(!new)>(t: Tree<V>, flat: map<string, V>, name: string)
    requires NamesOnly(t, "", flat) && name in flat
    ensures FlatName("", [name]) == name
  {
    var path :| Named(t, "", path, name, flat[name]);
    NameOfName(path);
  }

  lemma NameIsThereAgain<V(!new)>(t: Tree<V>, flat: map<string, V>, again: map<string, V>, name: string)
    requires NamesOnly(t, "", flat) && NamesAll(Leaves(flat), "", again) && name in flat
    ensures name in again
  {
    NamesOfFlat(t, flat, name);
    assert At(Leaves(flat), [name]).Some?;
  }

  lemma NameWasThere<V(!new)>(t: Tree<V>, flat: map<string, V>, again: map<string, V>, name: string)
    requires NamesOnly(t, "", flat) && NamesOnly(Leaves(flat), "", again) && name in again
    ensures name in flat && flat[name] == again[name]
  {
    var path :| Named(Leaves(flat), "", path, name, again[name]);
    assert At(Leaf(flat[path[0]]), path[1..]) == Some(again[name]);
    assert path == [path[0]] + path[1..] == [path[0]];
    NamesOfFlat(t, flat, path[0]);
  }

  /**
    Flattening once more changes nothing: what a flattening gives, with the keys of every dictionary taken
    in any order, is what every flattening of it gives again.
  */
  lemma FlatteningTwiceIsOnce<V(!new)>(t: Tree<V>, flat: map<string, V>, again: map<string, V>)
    requires IsFlat(t, "", flat) && IsFlat(Leaves(flat), "", again)
    ensures again == flat
  {
    assert again.Keys == flat.Keys by {
      forall name | name in flat ensures name in again {
        NameIsThereAgain(t, flat, again, name);
      }
      forall name | name in again ensures name in flat {
        NameWasThere(t, flat, again, name);
      }
    }
    forall name | name in again ensures again[name] == flat[name] {
      NameWasThere(t, flat, again, name);
    }
  }

  predicate Clean(path: seq<string>) {
    forall i :: 0 <= i < |path| ==> path[i] != "" && '.' !in path[i]
  }

  lemma {:induction false} JoinEnds(path: seq<string>, c: char)
    requires path != [] && path[|path| - 1] != ""
    ensures var joined, last := Join(path, c), path[|path| - 1];
            joined != "" && joined[|joined| - 1] == last[|last| - 1]
  {
    if |path| > 1 {
      JoinEnds(path[1..], c);
    }
  }

  lemma FlatNameOfClean(path: seq<string>)
    requires path != [] && Clean(path)
    ensures FlatName("", path) == Join(path, '.') && Split(FlatName("", path), '.') == path
  {
    JoinTerminated(path, '.');
    JoinEnds(path, '.');
    SplitJoin(path, '.');
    var joined, last := Join(path, '.'), path[|path| - 1];
    assert '.' !in last && joined[|joined| - 1] == last[|last| - 1];
    assert "" + Terminated(path, '.') == joined + ['.'];
    RStripOf(joined, '.');
  }

  // Keys with dots can give two leaves one name.
  lemma DotsCanCollide()
    ensures FlatName("", ["a.b"]) == FlatName("", ["a", "b"]) == "a.b"
  {
    assert "" + Terminated(["a.b"], '.') == "a.b." == "" + Terminated(["a", "b"], '.');
    assert "a.b."[..3] == "a.b";
  }

  // The entry that a name comes from.
  lemma EntryOfName<V(!new)>(t: Tree<V>, entries: seq<Entry<V>>, flat: map<string, V>, name: string)
    returns (i: nat)
    requires Holds(t, entries) && NamesOnly(t, "", flat) && name in flat
    ensures i < |entries| && FlatName("", entries[i].path) == name && entries[i].value == flat[name]
  {
    var path :| Named(t, "", path, name, flat[name]);
    i :| 0 <= i < |entries| && entries[i].path == path;
  }

  // Entries with one name have one value.
  ghost predicate NamesAgree<V>(entries: seq<Entry<V>>) {
    forall i, j :: 0 <= i < |entries| && 0 <= j < |entries| ==>
      (FlatName("", entries[i].path) == FlatName("", entries[j].path) ==> entries[i].value == entries[j].value)
  }

  ghost predicate HasEntry<V>(flat: map<string, V>, e: Entry<V>) {
    FlatName("", e.path) in flat && flat[FlatName("", e.path)] == e.value
  }

  /**
    Rebuilding nested dictionaries and flattening them gives every entry back under its dotted name exactly if
    entries with one name have one value; and there are no other names. The paths are those that the
    rebuilding keeps.
  */
  lemma FlattenAfterRebuild<V(!new)>(entries: seq<Entry<V>>, flat: map<string, V>)
    requires NonEmptyPaths(entries) && PrefixFree(entries)
    requires forall i :: 0 <= i < |entries| ==> NameSafe(entries, i)
    requires Rebuild(entries).Some? ==> IsFlat(Rebuild(entries).value, "", flat)
    ensures Rebuild(entries).Some?
    ensures (forall i :: 0 <= i < |entries| ==> HasEntry(flat, entries[i])) <==> NamesAgree(entries)
    ensures forall name :: name in flat ==>
              exists i :: 0 <= i < |entries| && FlatName("", entries[i].path) == name && entries[i].value == flat[name]
  {
    RebuildSpec(entries);
    var t := Rebuild(entries).value;
    forall i | 0 <= i < |entries| ensures NamesAgree(entries) ==> HasEntry(flat, entries[i]) {
      assert At(t, entries[i].path).Some?;
      var j := EntryOfName(t, entries, flat, FlatName("", entries[i].path));
    }
    forall name | name in flat
      ensures exists i :: 0 <= i < |entries| && FlatName("", entries[i].path) == name && entries[i].value == flat[name]
    {
      var i := EntryOfName(t, entries, flat, name);
    }
    if forall i :: 0 <= i < |entries| ==> HasEntry(flat, entries[i]) {
      forall i, j | 0 <= i < |entries| && 0 <= j < |entries|
                    && FlatName("", entries[i].path) == FlatName("", entries[j].path)
        ensures entries[i].value == entries[j].value
      {
        assert HasEntry(flat, entries[i]) && HasEntry(flat, entries[j]);
      }
    }
  }

  /** Entries whose keys are not empty and have no dots have names of their own: their keys, joined by dots. */
  lemma CleanNamesAgree<V>(entries: seq<Entry<V>>)
    requires NonEmptyPaths(entries) && PrefixFree(entries)
    requires forall i :: 0 <= i < |entries| ==> Clean(entries[i].path)
    ensures NamesAgree(entries)
    ensures forall i :: 0 <= i < |entries| ==> FlatName("", entries[i].path) == Join(entries[i].path, '.')
  {
    forall i | 0 <= i < |entries|
      ensures FlatName("", entries[i].path) == Join(entries[i].path, '.')
      ensures Split(FlatName("", entries[i].path), '.') == entries[i].path
    {
      FlatNameOfClean(entries[i].path);
    }
    forall i, j | 0 <= i < |entries| && 0 <= j < |entries|
                  && FlatName("", entries[i].path) == FlatName("", entries[j].path)
      ensures i == j
    {
      assert entries[i].path <= entries[j].path;
    }
  }
}
