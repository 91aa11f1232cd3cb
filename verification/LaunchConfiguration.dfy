/** The configuration of a launch: a default file, the launch arguments, and a user's file. */
module LaunchConfiguration {
  import opened Messages
  import opened Trees
  import opened YamlLines
  import opened LaunchParamUtils
  import opened Documents

  // Leaves named like a launch argument have its value; every leaf is converted.
  function Updated<V>(t: Tree<V>, arguments: map<string, V>, convert: V -> V): Tree<V> {
    match t
    case Leaf(_) => t
    case Node(children) => Node(map k | k in children ::
        match children[k]
        case Leaf(v) => Leaf(convert(if k in arguments then arguments[k] else v))
        case Node(_) => Updated(children[k], arguments, convert))
  }

  method UpdateLeafKeys<V>(data: Tree<V>, arguments: map<string, V>, convert: V -> V) returns (updated: Tree<V>)
    requires data.Node?
    ensures updated == Updated(data, arguments, convert)
    decreases data
  {
    var items := data.children;
    var rest := data.children.Keys;
    while rest != {}
      invariant rest <= data.children.Keys == items.Keys
      invariant forall k :: k in rest ==> items[k] == data.children[k]
      invariant forall k :: k in data.children && k !in rest ==>
                  items[k] == Updated(data, arguments, convert).children[k]
    {
      var key :| key in rest;
      match items[key] {
        case Node(_) =>
          var below := UpdateLeafKeys(items[key], arguments, convert);
          items := items[key := below];
        case Leaf(item) =>
          var v := if key in arguments then arguments[key] else item;
          items := items[key := Leaf(convert(v))];
      }
      rest := rest - {key};
    }
    updated := Node(items);
  }

  // The argument of a path's last key, or else the default.
  function ArgumentOr<V>(arguments: map<string, V>, path: seq<string>, value: V): V {
    if path != [] && Last(path) in arguments then arguments[Last(path)] else value
  }

  /**
    The update keeps every path. The value at a path is the argument of the path's last key, or else the
    value that was there, converted in either case.
  */
  lemma {:induction false} UpdateSpec<V>(t: Tree<V>, arguments: map<string, V>, convert: V -> V, path: seq<string>)
    requires t.Node?
    ensures HasNode(Updated(t, arguments, convert), path) <==> HasNode(t, path)
    ensures At(Updated(t, arguments, convert), path) ==
              match At(t, path)
              case None => None
              case Some(v) => Some(convert(ArgumentOr(arguments, path, v)))
    decreases |path|
  {
    if path != [] && path[0] in t.children && t.children[path[0]].Node? {
      UpdateSpec(t.children[path[0]], arguments, convert, path[1..]);
    }
  }

  // Where the merge goes on with a dictionary of the user's, but has a value to merge it with.
  ghost predicate Clash<V>(a: Tree<V>, b: Tree<V>)
    decreases b
  {
    match b
    case Leaf(_) => false
    case Node(below) =>
      match a
      case Leaf(_) => below != map[]
      case Node(children) => exists k :: k in below && k in children && Clash(children[k], below[k])
  }

  ghost function Merged<V>(a: Tree<V>, b: Tree<V>): Tree<V>
    requires !Clash(a, b)
    decreases b
  {
    match b
    case Leaf(_) => b
    case Node(below) =>
      match a
      case Leaf(_) => a
      case Node(children) => Node(map k | k in children.Keys + below.Keys ::
          if k !in below then children[k] else if k !in children then below[k] else Merged(children[k], below[k]))
  }

  method MergeDicts<V>(dict1: Tree<V>, dict2: Tree<V>) returns (r: Option<Tree<V>>)
    requires dict2.Node?
    ensures r == if Clash(dict1, dict2) then None else Some(Merged(dict1, dict2))
    decreases dict2
  {
    if dict1.Leaf? {
      // The first key of a dictionary is looked for in a value.
      return if dict2.children != map[] then None else Some(dict1);
    }
    var merged, rest := dict1.children, dict2.children.Keys;
    ghost var done: set<string> := {};
    while rest != {}
      invariant done + rest == dict2.children.Keys && done !! rest
      invariant merged.Keys == dict1.children.Keys + done
      invariant forall k :: k in merged && k !in done ==> merged[k] == dict1.children[k]
      invariant forall k :: k in done && k !in dict1.children ==> merged[k] == dict2.children[k]
      invariant forall k :: k in done && k in dict1.children ==>
                  && !Clash(dict1.children[k], dict2.children[k])
                  && merged[k] == Merged(dict1.children[k], dict2.children[k])
    {
      var key :| key in rest;
      var value := dict2.children[key];
      if key in merged && value.Node? {
        var below := MergeDicts(merged[key], value);
        if below.None? {
          return None;
        }
        merged := merged[key := below.value];
      } else {
        merged := merged[key := value];
      }
      done, rest := done + {key}, rest - {key};
    }
    assert done == dict2.children.Keys;
    assert !Clash(dict1, dict2);
    assert merged == Merged(dict1, dict2).children;
    r := Some(Node(merged));
  }

  // The one has a value where the other has a dictionary with something in it.
  ghost predicate ClashAt<V>(a: Tree<V>, b: Tree<V>, path: seq<string>) {
    At(a, path).Some? && HasFullNode(b, path)
  }

  lemma {:induction false} ClashSpec<V(!new)>(a: Tree<V>, b: Tree<V>)
    ensures Clash(a, b) <==> exists path :: ClashAt(a, b, path)
    decreases b
  {
    if a.Leaf? {
      assert ClashAt(a, b, []) <==> HasFullNode(b, []);
    } else if b.Node? {
      if k :| k in b.children && k in a.children && Clash(a.children[k], b.children[k]) {
        ClashSpec(a.children[k], b.children[k]);
        var path :| ClashAt(a.children[k], b.children[k], path);
        assert ([k] + path)[1..] == path;
        assert ClashAt(a, b, [k] + path);
      }
      if path :| ClashAt(a, b, path) {
        ClashSpec(a.children[path[0]], b.children[path[0]]);
        assert ClashAt(a.children[path[0]], b.children[path[0]], path[1..]);
      }
    }
  }

  lemma {:induction false} MergedAt<V>(a: Tree<V>, b: Tree<V>, path: seq<string>)
    requires !Clash(a, b)
    ensures At(Merged(a, b), path) == if Covers(b, path) then At(b, path) else At(a, path)
    decreases |path|
  {
    if a.Node? && b.Node? && path != [] {
      var k := path[0];
      if k in a.children && k in b.children {
        assert !Clash(a.children[k], b.children[k]);
        MergedAt(a.children[k], b.children[k], path[1..]);
        assert Merged(a, b).children[k] == Merged(a.children[k], b.children[k]);
      } else {
        if At(b, path).Some? {
          LeavesAreCovered(b, path);
        }
      }
    }
  }

  /**
    The merge is the union of the leaves in which the user's win, exactly if no leaf of the user's stands
    for a dictionary with a leaf.
  */
  lemma MergeIsTheUnion<V(!new)>(a: Tree<V>, b: Tree<V>)
    requires !Clash(a, b)
    ensures (forall path :: At(Merged(a, b), path) == if At(b, path).Some? then At(b, path) else At(a, path))
            <==> (forall path :: At(a, path).Some? && Covers(b, path) ==> At(b, path).Some?)
  {
    forall path
      ensures At(Merged(a, b), path) == if Covers(b, path) then At(b, path) else At(a, path)
    {
      MergedAt(a, b, path);
    }
    forall path | At(b, path).Some? ensures Covers(b, path) {
      LeavesAreCovered(b, path);
    }
  }

  // The layers of a configuration; there is no user's file if it is the default one.
  ghost function Layered<V>(default: Tree<V>, arguments: map<string, V>, user: Option<Tree<V>>, convert: V -> V)
    : Option<Tree<V>>
  {
    var updated := Updated(default, arguments, convert);
    match user
    case None => Some(updated)
    case Some(tree) => if Clash(updated, tree) then None else Some(Merged(updated, tree))
  }

  /**
    At every path the configuration has the value of the user's file if a leaf there covers the path, else
    the launch argument of the path's last key if the default file has the path, else the default. It is
    an error exactly if the user's file has a full dictionary where the default file has a value.
  */
  lemma LayersByPriority<V(!new)>(default: Tree<V>, arguments: map<string, V>, user: Option<Tree<V>>, convert: V -> V)
    requires default.Node?
    ensures Layered(default, arguments, user, convert).None? <==>
              user.Some? && exists path :: ClashAt(default, user.value, path)
    ensures Layered(default, arguments, user, convert).Some? ==>
              forall path :: At(Layered(default, arguments, user, convert).value, path) ==
                if user.Some? && Covers(user.value, path) then At(user.value, path)
                else
                  match At(default, path)
                  case None => None
                  case Some(v) => Some(convert(ArgumentOr(arguments, path, v)))
  {
    var updated := Updated(default, arguments, convert);
    forall path
      ensures At(updated, path) ==
                match At(default, path)
                case None => None
                case Some(v) => Some(convert(ArgumentOr(arguments, path, v)))
    {
      UpdateSpec(default, arguments, convert, path);
    }
    if user.Some? {
      ClashSpec(updated, user.value);
      forall path ensures ClashAt(updated, user.value, path) <==> ClashAt(default, user.value, path) {
      }
      if !Clash(updated, user.value) {
        forall path
          ensures At(Merged(updated, user.value), path) ==
                    if Covers(user.value, path) then At(user.value, path) else At(updated, path)
        {
          MergedAt(updated, user.value, path);
        }
      }
    }
  }

  const ALL_NODES := "/**"
  const PARAMETERS := "ros__parameters"

  // The dictionaries that are written one after the other; None is the error of a value for all nodes.
  function Written<V>(data: Tree<V>): Option<seq<Tree<V>>>
    requires data.Node?
  {
    if ALL_NODES !in data.children then Some(if data.children == map[] then [] else [data])
    else
      match data.children[ALL_NODES]
      case Leaf(_) => None
      case Node(all) =>
        if PARAMETERS !in all then Some([data])
        else Some([Aside(all)] + if all.Keys == {PARAMETERS} then [] else [Rest(data.children, all)])
  }

  function Aside<V>(all: map<string, Tree<V>>): Tree<V>
    requires PARAMETERS in all
  {
    Node(map[ALL_NODES := Node(map[PARAMETERS := all[PARAMETERS]])])
  }

  function Rest<V>(children: map<string, Tree<V>>, all: map<string, Tree<V>>): Tree<V> {
    Node(children[ALL_NODES := Node(all - {PARAMETERS})])
  }

  // The entry for all nodes holds the parameters and nothing else.
  predicate OnlyParameters<V>(data: Tree<V>) {
    && data.Node? && ALL_NODES in data.children && data.children[ALL_NODES].Node?
    && data.children[ALL_NODES].children.Keys == {PARAMETERS}
  }

  ghost predicate IsWritten<V>(documents: seq<Tree<V>>, path: seq<string>, value: V) {
    exists i :: 0 <= i < |documents| && At(documents[i], path) == Some(value)
  }

  predicate IsAside(path: seq<string>) {
    |path| >= 2 && path[0] == ALL_NODES && path[1] == PARAMETERS
  }

  lemma AsideAndRest<V>(data: Tree<V>, all: map<string, Tree<V>>, path: seq<string>)
    requires data.Node? && ALL_NODES in data.children && data.children[ALL_NODES] == Node(all) && PARAMETERS in all
    ensures At(Aside(all), path) == if IsAside(path) then At(data, path) else None
    ensures At(Rest(data.children, all), path) == if IsAside(path) then None else At(data, path)
  {
  }

  // What becomes of one path.
  lemma WrittenAt<V>(data: Tree<V>, path: seq<string>, value: V)
    requires data.Node? && Written(data).Some?
    ensures IsWritten(Written(data).value, path, value) <==>
              At(data, path) == Some(value) && (OnlyParameters(data) ==> path[0] == ALL_NODES)
  {
    var documents := Written(data).value;
    if ALL_NODES in data.children && PARAMETERS in data.children[ALL_NODES].children {
      var all := data.children[ALL_NODES].children;
      AsideAndRest(data, all, path);
      assert At(documents[0], path) == At(Aside(all), path);
      if OnlyParameters(data) {
        assert documents == [Aside(all)];
        if At(data, path) == Some(value) && path[0] == ALL_NODES {
          assert At(data, path) == At(Node(all), path[1..]);
        }
      } else {
        assert documents[1] == Rest(data.children, all);
      }
    } else if At(data, path) == Some(value) {
      assert documents == [data] && At(documents[0], path) == Some(value);
    }
  }

  /**
    Nothing is written that is not in the configuration, and everything in it is written, exactly unless
    the entry for all nodes holds the parameters alone and there is a value outside it. Then the other
    entries are dropped along with the emptied one.
  */
  lemma WritingKeepsAll<V(!new)>(data: Tree<V>)
    requires data.Node? && Written(data).Some?
    ensures forall path, value :: IsWritten(Written(data).value, path, value) ==> At(data, path) == Some(value)
    ensures (forall path, value :: At(data, path) == Some(value) ==> IsWritten(Written(data).value, path, value))
            <==> !(OnlyParameters(data) && exists path :: At(data, path).Some? && path[0] != ALL_NODES)
  {
    forall path, value
      ensures IsWritten(Written(data).value, path, value) <==>
                At(data, path) == Some(value) && (OnlyParameters(data) ==> path[0] == ALL_NODES)
    {
      WrittenAt(data, path, value);
    }
    if path :| OnlyParameters(data) && At(data, path).Some? && path[0] != ALL_NODES {
      assert !IsWritten(Written(data).value, path, At(data, path).value);
    }
  }

  // An empty dictionary is not written.
  lemma NothingEmptyIsWritten<V>(data: Tree<V>)
    requires data.Node? && Written(data).Some?
    ensures forall d :: d in Written(data).value ==> d.Node? && d.children != map[]
  {
    forall d | d in Written(data).value
      ensures d.Node? && d.children != map[]
    {
      assert data.children != map[] && (ALL_NODES in data.children ==> ALL_NODES in d.children);
    }
  }

  /**
    The parameters for all nodes are written before everything else, by themselves, if there are any; and so in
    two parts at most.
  */
  lemma ParametersComeFirst<V(!new)>(data: Tree<V>)
    requires data.Node? && Written(data).Some?
    requires exists path :: IsAside(path) && At(data, path).Some?
    ensures var documents := Written(data).value;
            && 1 <= |documents| <= 2
            && (forall path :: At(documents[0], path) == if IsAside(path) then At(data, path) else None)
            && (|documents| == 2 ==>
                  forall path :: At(documents[1], path) == if IsAside(path) then None else At(data, path))
  {
  }

  // The whole substitution, from the lines of the files to what is written; None is an error.
  method Perform<V>(defaultLines: seq<Line>, userLines: Option<seq<Line>>, arguments: map<string, V>,
                    coerce: string -> V, convert: V -> V)
    returns (documents: Option<seq<Tree<V>>>)
    ensures documents == match Performed(defaultLines, userLines, arguments, coerce, convert)
                         case None => None
                         case Some(data) => Written(data)
  {
    var default := ReadCompleteYamlText(defaultLines, coerce);
    if default.None? {
      return None;
    }
    var data := UpdateLeafKeys(default.value, arguments, convert);
    if userLines.Some? {
      var user := ReadCompleteYamlText(userLines.value, coerce);
      if user.None? {
        return None;
      }
      var merged := MergeDicts(data, user.value);
      if merged.None? {
        return None;
      }
      data := merged.value;
    }
    documents := Written(data);
  }

  ghost function Performed<V>(defaultLines: seq<Line>, userLines: Option<seq<Line>>, arguments: map<string, V>,
                              coerce: string -> V, convert: V -> V): (r: Option<Tree<V>>)
    ensures r.Some? ==> r.value.Node?
  {
    match Read(defaultLines, coerce)
    case None => None
    case Some(default) =>
      match userLines
      case None => Layered(default, arguments, None, convert)
      case Some(lines) =>
        match Read(lines, coerce)
        case None => None
        case Some(user) => Layered(default, arguments, Some(user), convert)
  }

  // The values of the one, where no leaf of it covers a path those of the other.
  ghost predicate LayeredOver<V(!new)>(r: Tree<V>, below: Tree<V>, above: Tree<V>) {
    forall path :: At(r, path) == if Covers(above, path) then At(above, path) else At(below, path)
  }

  /**
    For all files: the substitution fails exactly if a file cannot be read or the two clash, and what it gives
    is the layers of what is read.
  */
  lemma PerformedByLayers<V(!new)>(defaultLines: seq<Line>, userLines: Option<seq<Line>>, arguments: map<string, V>,
                                   coerce: string -> V, convert: V -> V)
    ensures var default := Read(defaultLines, coerce);
            var r := Performed(defaultLines, userLines, arguments, coerce, convert);
            if default.None? then r.None?
            else if userLines.None? then r == Some(Updated(default.value, arguments, convert))
            else
              var user := Read(userLines.value, coerce);
              && (r.None? <==> user.None? || exists path :: ClashAt(default.value, user.value, path))
              && (r.Some? ==> LayeredOver(r.value, Updated(default.value, arguments, convert), user.value))
  {
    var default := Read(defaultLines, coerce);
    if default.Some? && userLines.Some? && Read(userLines.value, coerce).Some? {
      var user := Read(userLines.value, coerce).value;
      LayersByPriority(default.value, arguments, Some(user), convert);
      if !Clash(Updated(default.value, arguments, convert), user) {
        forall path
          ensures At(Merged(Updated(default.value, arguments, convert), user), path) ==
                  if Covers(user, path) then At(user, path) else At(Updated(default.value, arguments, convert), path)
        {
          MergedAt(Updated(default.value, arguments, convert), user, path);
        }
      }
    }
  }

  // The lines of the files with their indentations, the launch arguments, and the conversions of texts.
  datatype Inputs<!V> = Inputs(
    defaultLines: seq<Line>, defaultSep: nat, userLines: Option<seq<Line>>, userSep: nat,
    arguments: map<string, V>, coerce: string -> V, convert: V -> V)

  ghost function Configuration<V>(f: Inputs<V>): Option<Tree<V>> {
    Performed(f.defaultLines, f.userLines, f.arguments, f.coerce, f.convert)
  }

  // What the lines of the files give a path: the user's where a line of it stands for the path, and else the
  // default, or the argument of its last key.
  ghost predicate Configured<V(!new)>(f: Inputs<V>, path: seq<string>, value: V)
    requires f.defaultSep > 0 && f.userSep > 0
  {
    if f.userLines.Some? && StandsFor(f.userLines.value, f.userSep, path)
    then Says(f.userLines.value, f.userSep, f.coerce, path, value)
    else
      exists v :: Says(f.defaultLines, f.defaultSep, f.coerce, path, v)
                  && value == f.convert(ArgumentOr(f.arguments, path, v))
  }

  // A line of the user's file goes on below a line with content of the default file.
  ghost predicate GoesOnBelow(defaultLines: seq<Line>, defaultSep: nat, userLines: seq<Line>, userSep: nat)
    requires defaultSep > 0 && userSep > 0
  {
    exists i :: 0 <= i < |defaultLines| && Records(defaultLines[i])
                && OpenedBefore(userLines, userSep, |userLines|, Path(defaultLines, defaultSep, i))
  }

  // Documents that are read as what they say.
  ghost predicate Readable(lines: seq<Line>, sep: nat) {
    WellIndented(lines, sep) && Good(lines, sep)
  }

  ghost predicate ReadableInputs<V>(f: Inputs<V>) {
    && Readable(f.defaultLines, f.defaultSep) && f.userSep > 0
    && (f.userLines.Some? ==> Readable(f.userLines.value, f.userSep))
  }

  // Two documents clash exactly if the user's goes on below a line with content of the default one.
  lemma ClashOfDocuments<V(!new)>(defaultLines: seq<Line>, defaultSep: nat, userLines: seq<Line>, userSep: nat,
                                  coerce: string -> V)
    requires Readable(defaultLines, defaultSep) && Readable(userLines, userSep)
    ensures Read(defaultLines, coerce).Some? && Read(userLines, coerce).Some?
    ensures (exists path :: ClashAt(Read(defaultLines, coerce).value, Read(userLines, coerce).value, path))
            <==> GoesOnBelow(defaultLines, defaultSep, userLines, userSep)
  {
    ReadIsTheDocument(defaultLines, defaultSep, coerce);
    ReadIsTheDocument(userLines, userSep, coerce);
    var default, user := Read(defaultLines, coerce).value, Read(userLines, coerce).value;
    if path :| ClashAt(default, user, path) {
      ReadFullNode(userLines, userSep, coerce, path);
      assert IsRecorded(defaultLines, defaultSep, path);
    }
    if i :| 0 <= i < |defaultLines| && Records(defaultLines[i])
            && OpenedBefore(userLines, userSep, |userLines|, Path(defaultLines, defaultSep, i)) {
      RecordedHasAValue(defaultLines, defaultSep, coerce, i);
      ReadFullNode(userLines, userSep, coerce, Path(defaultLines, defaultSep, i));
      assert ClashAt(default, user, Path(defaultLines, defaultSep, i));
    }
  }

  // The value of the layered configuration at a path is what the lines say.
  lemma LayeredSays<V(!new)>(f: Inputs<V>, path: seq<string>, value: V)
    requires ReadableInputs(f) && Configuration(f).Some?
    ensures At(Configuration(f).value, path) == Some(value) <==> Configured(f, path, value)
  {
    ReadIsTheDocument(f.defaultLines, f.defaultSep, f.coerce);
    var default := Read(f.defaultLines, f.coerce).value;
    forall v ensures At(default, path) == Some(v) <==> Says(f.defaultLines, f.defaultSep, f.coerce, path, v) {
      ReadAt(f.defaultLines, f.defaultSep, f.coerce, path, v);
    }
    if f.userLines.Some? {
      ReadCovers(f.userLines.value, f.userSep, f.coerce, path);
      ReadAt(f.userLines.value, f.userSep, f.coerce, path, value);
      LayersByPriority(default, f.arguments, Some(Read(f.userLines.value, f.coerce).value), f.convert);
    } else {
      LayersByPriority(default, f.arguments, None, f.convert);
    }
  }

  // A line that is recorded is below the top, so no value stands for all nodes.
  lemma NoValueForAllNodes<V(!new)>(f: Inputs<V>)
    requires ReadableInputs(f)
    requires Configuration(f).Some?
    ensures Written(Configuration(f).value).Some?
  {
    var r := Configuration(f).value;
    if Written(r).None? {
      assert [ALL_NODES][1..] == [];
      assert At(r, [ALL_NODES]) == At(r.children[ALL_NODES], []);
      var value := r.children[ALL_NODES].value;
      LayeredSays(f, [ALL_NODES], value);
      if f.userLines.Some? && StandsFor(f.userLines.value, f.userSep, [ALL_NODES]) {
        SaysBelowTheTop(f.userLines.value, f.userSep, f.coerce, [ALL_NODES], value);
      } else {
        var v :| Says(f.defaultLines, f.defaultSep, f.coerce, [ALL_NODES], v);
        SaysBelowTheTop(f.defaultLines, f.defaultSep, f.coerce, [ALL_NODES], v);
      }
    }
  }

  lemma SaysBelowTheTop<V>(lines: seq<Line>, sep: nat, coerce: string -> V, path: seq<string>, value: V)
    requires WellIndented(lines, sep) && Says(lines, sep, coerce, path, value)
    ensures |path| > 1
  {
  }

  /**
    The whole substitution, from the lines of readable files: it fails exactly if a line of the user's file
    goes on below a line with content of the default file. Otherwise it writes at each path what the lines
    say by the documented priority, and nothing else, but for the namespaces that `OnlyParameters` drops.
  */
  lemma ConfigurationOfTheDocuments<V(!new)>(f: Inputs<V>)
    requires ReadableInputs(f)
    ensures var r := Configuration(f);
            && (r.None? <==>
                  f.userLines.Some? && GoesOnBelow(f.defaultLines, f.defaultSep, f.userLines.value, f.userSep))
            && (r.Some? ==> Written(r.value).Some?)
            && (r.Some? ==>
                  forall path, value :: IsWritten(Written(r.value).value, path, value) <==>
                    && Configured(f, path, value)
                    && (OnlyParameters(r.value) ==> path != [] && path[0] == ALL_NODES))
  {
    ReadIsTheDocument(f.defaultLines, f.defaultSep, f.coerce);
    var default := Read(f.defaultLines, f.coerce).value;
    if f.userLines.Some? {
      ClashOfDocuments(f.defaultLines, f.defaultSep, f.userLines.value, f.userSep, f.coerce);
      LayersByPriority(default, f.arguments, Some(Read(f.userLines.value, f.coerce).value), f.convert);
    }
    var r := Configuration(f);
    if r.Some? {
      NoValueForAllNodes(f);
      forall path, value
        ensures IsWritten(Written(r.value).value, path, value) <==>
                  && Configured(f, path, value)
                  && (OnlyParameters(r.value) ==> path != [] && path[0] == ALL_NODES)
      {
        WrittenAt(r.value, path, value);
        LayeredSays(f, path, value);
      }
    }
  }
}
