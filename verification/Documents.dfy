/** What reading a parameter file gives, in terms of the lines of the file. */
module Documents {
  import opened Messages
  import opened Strings
  import opened Trees
  import opened YamlLines
  import opened LaunchParamUtils

  // No recorded path begins another one.
  ghost predicate Apart(lines: seq<Line>, sep: nat)
    requires sep > 0
  {
    forall i, j :: 0 <= i < |lines| && 0 <= j < |lines| && Records(lines[i]) && Records(lines[j]) ==>
      (Path(lines, sep, i) <= Path(lines, sep, j) ==> Path(lines, sep, i) == Path(lines, sep, j))
  }

  // A line before line i is recorded below a path.
  ghost predicate OpenedBefore(lines: seq<Line>, sep: nat, i: nat, path: seq<string>)
    requires sep > 0 && i <= |lines|
  {
    exists j :: 0 <= j < i && Records(lines[j]) && path < Path(lines, sep, j)
  }

  // A dictionary above line i that has its key is opened by an earlier line.
  ghost predicate OwnName(lines: seq<Line>, sep: nat, i: nat)
    requires sep > 0 && i < |lines|
  {
    var path := Path(lines, sep, i);
    forall m :: 0 <= m < |path| - 1 && path[m] == Last(path) ==> OpenedBefore(lines, sep, i, path[..m + 1])
  }

  // A document that is read as what it says.
  ghost predicate Good(lines: seq<Line>, sep: nat)
    requires sep > 0
  {
    Apart(lines, sep) && forall i :: 0 <= i < |lines| && FirstOfName(lines, sep, i) ==> OwnName(lines, sep, i)
  }

  // A well-indented document and the dictionary that it is parsed to.
  ghost predicate ParsesTo(lines: seq<Line>, sep: nat, d: Dict) {
    WellIndented(lines, sep) && Parse(lines).Some? && Parse(lines).value.data == d && Listed(d)
  }

  // The entry that a line is the first of, with the content of the last line of its name.
  lemma LineOfEntry<V>(lines: seq<Line>, sep: nat, coerce: string -> V, d: Dict, e: nat) returns (i: nat, l: nat)
    requires ParsesTo(lines, sep, d) && e < |d.order|
    ensures i < |lines| && FirstOfName(lines, sep, i) && d.order[e] == Name(lines, sep, i)
    ensures Names(lines, sep, i) == d.order[..e]
    ensures l < |lines| && LastOfName(lines, sep, l, |lines|) && Path(lines, sep, l) == Path(lines, sep, i)
    ensures Entries(d, coerce, |d.order|)[e] == Entry(Path(lines, sep, i), coerce(lines[l].content))
  {
    RecordedAreTheLines(lines, sep);
    i := LineOfName(lines, sep, |lines|, e);
    l := LastLine(lines, sep, i, |lines|);
    NamesAreOfPaths(lines, sep, i, l);
    StackIsFree(lines, sep, i + 1);
    SplitJoin(Path(lines, sep, i), ':');
  }

  lemma EntryOfLine(lines: seq<Line>, sep: nat, d: Dict, i: nat) returns (e: nat)
    requires ParsesTo(lines, sep, d)
    requires i < |lines| && Records(lines[i])
    ensures e < |d.order| && d.order[e] == Name(lines, sep, i)
  {
    RecordedAreTheLines(lines, sep);
    assert Name(lines, sep, i) in d.order;
    e :| 0 <= e < |d.order| && d.order[e] == Name(lines, sep, i);
  }

  // The entry of a recorded line has the path of the line.
  lemma PathOfEntry<V>(lines: seq<Line>, sep: nat, coerce: string -> V, d: Dict, i: nat) returns (e: nat)
    requires ParsesTo(lines, sep, d)
    requires i < |lines| && Records(lines[i])
    ensures e < |d.order| && d.order[e] == Name(lines, sep, i)
    ensures Entries(d, coerce, |d.order|)[e].path == Path(lines, sep, i)
  {
    e := EntryOfLine(lines, sep, d, i);
    var first, _ := LineOfEntry(lines, sep, coerce, d, e);
    NamesAreOfPaths(lines, sep, first, i);
  }

  lemma ApartIsPrefixFree<V>(lines: seq<Line>, sep: nat, coerce: string -> V, d: Dict)
    requires ParsesTo(lines, sep, d)
    ensures PrefixFree(Entries(d, coerce, |d.order|)) <==> Apart(lines, sep)
  {
    var entries := Entries(d, coerce, |d.order|);
    if Apart(lines, sep) {
      forall e, f | 0 <= e < |entries| && 0 <= f < |entries| && e != f
        ensures !(entries[e].path <= entries[f].path)
      {
        var i, _ := LineOfEntry(lines, sep, coerce, d, e);
        var j, _ := LineOfEntry(lines, sep, coerce, d, f);
        assert d.order[e] != d.order[f];
      }
    }
    if PrefixFree(entries) {
      forall i, j | 0 <= i < |lines| && 0 <= j < |lines| && Records(lines[i]) && Records(lines[j])
                    && Path(lines, sep, i) <= Path(lines, sep, j)
        ensures Path(lines, sep, i) == Path(lines, sep, j)
      {
        var e := PathOfEntry(lines, sep, coerce, d, i);
        var f := PathOfEntry(lines, sep, coerce, d, j);
        assert e == f;
      }
    }
  }

  // Before an entry there are the lines before the first of its own.
  lemma EarlierIsOpened<V>(lines: seq<Line>, sep: nat, coerce: string -> V, d: Dict, e: nat, i: nat, q: seq<string>)
    requires ParsesTo(lines, sep, d)
    requires e < |d.order| && i < |lines| && Names(lines, sep, i) == d.order[..e]
    ensures PrefixOfEarlier(Entries(d, coerce, |d.order|), e, q) <==> OpenedBefore(lines, sep, i, q)
  {
    var entries := Entries(d, coerce, |d.order|);
    if PrefixOfEarlier(entries, e, q) {
      var f :| 0 <= f < e && q < entries[f].path;
      var first, _ := LineOfEntry(lines, sep, coerce, d, f);
      assert d.order[f] in d.order[..e];
      NamesSpec(lines, sep, i, d.order[f]);
      var j :| 0 <= j < i && Records(lines[j]) && d.order[f] == Name(lines, sep, j);
      NamesAreOfPaths(lines, sep, first, j);
    }
    if OpenedBefore(lines, sep, i, q) {
      var j :| 0 <= j < i && Records(lines[j]) && q < Path(lines, sep, j);
      NamesSpec(lines, sep, i, Name(lines, sep, j));
      var f :| 0 <= f < e && d.order[f] == Name(lines, sep, j);
      var first, _ := LineOfEntry(lines, sep, coerce, d, f);
      NamesAreOfPaths(lines, sep, first, j);
    }
  }

  // An entry is safe if the line that it comes from first has a name of its own.
  lemma OwnNameIsSafe<V>(lines: seq<Line>, sep: nat, coerce: string -> V, d: Dict, e: nat) returns (i: nat)
    requires ParsesTo(lines, sep, d) && e < |d.order|
    ensures i < |lines| && FirstOfName(lines, sep, i) && d.order[e] == Name(lines, sep, i)
    ensures NameSafe(Entries(d, coerce, |d.order|), e) <==> OwnName(lines, sep, i)
  {
    var l: nat;
    i, l := LineOfEntry(lines, sep, coerce, d, e);
    forall q ensures PrefixOfEarlier(Entries(d, coerce, |d.order|), e, q) <==> OpenedBefore(lines, sep, i, q) {
      EarlierIsOpened(lines, sep, coerce, d, e, i, q);
    }
  }

  lemma OwnNamesAreSafe<V>(lines: seq<Line>, sep: nat, coerce: string -> V, d: Dict)
    requires ParsesTo(lines, sep, d)
    ensures (forall e :: 0 <= e < |d.order| ==> NameSafe(Entries(d, coerce, |d.order|), e))
            <==> (forall i :: 0 <= i < |lines| && FirstOfName(lines, sep, i) ==> OwnName(lines, sep, i))
  {
    var entries := Entries(d, coerce, |d.order|);
    if forall i :: 0 <= i < |lines| && FirstOfName(lines, sep, i) ==> OwnName(lines, sep, i) {
      forall e | 0 <= e < |d.order| ensures NameSafe(entries, e) {
        var i := OwnNameIsSafe(lines, sep, coerce, d, e);
      }
    }
    if forall e :: 0 <= e < |d.order| ==> NameSafe(entries, e) {
      forall i | 0 <= i < |lines| && FirstOfName(lines, sep, i) ensures OwnName(lines, sep, i) {
        var e := EntryOfLine(lines, sep, d, i);
        var first := OwnNameIsSafe(lines, sep, coerce, d, e);
        assert first == i;
      }
    }
  }

  // Every recorded path has the content of the last line that has it.
  ghost predicate ReadsAsWritten<V>(lines: seq<Line>, sep: nat, coerce: string -> V)
    requires sep > 0
  {
    && Read(lines, coerce).Some?
    && forall l :: 0 <= l < |lines| && LastOfName(lines, sep, l, |lines|) ==>
         At(Read(lines, coerce).value, Path(lines, sep, l)) == Some(coerce(lines[l].content))
  }

  // A line with content below the top has the path.
  ghost predicate IsRecorded(lines: seq<Line>, sep: nat, path: seq<string>)
    requires sep > 0
  {
    exists i :: 0 <= i < |lines| && Records(lines[i]) && Path(lines, sep, i) == path
  }

  // The entries are where the lines say.
  lemma EntriesAreTheLines<V>(lines: seq<Line>, sep: nat, coerce: string -> V, d: Dict, t: Tree<V>)
    requires ParsesTo(lines, sep, d)
    ensures (forall e :: 0 <= e < |d.order| ==>
               var entry := Entries(d, coerce, |d.order|)[e]; At(t, entry.path) == Some(entry.value))
            <==> (forall l :: 0 <= l < |lines| && LastOfName(lines, sep, l, |lines|) ==>
                    At(t, Path(lines, sep, l)) == Some(coerce(lines[l].content)))
  {
    var entries := Entries(d, coerce, |d.order|);
    if forall e :: 0 <= e < |entries| ==> At(t, entries[e].path) == Some(entries[e].value) {
      forall l | 0 <= l < |lines| && LastOfName(lines, sep, l, |lines|)
        ensures At(t, Path(lines, sep, l)) == Some(coerce(lines[l].content))
      {
        var e := PathOfEntry(lines, sep, coerce, d, l);
        var i, last := LineOfEntry(lines, sep, coerce, d, e);
        assert Name(lines, sep, last) == Name(lines, sep, l);
        assert last == l;
      }
    }
    if forall l :: 0 <= l < |lines| && LastOfName(lines, sep, l, |lines|) ==>
         At(t, Path(lines, sep, l)) == Some(coerce(lines[l].content)) {
      forall e | 0 <= e < |entries| ensures At(t, entries[e].path) == Some(entries[e].value) {
        var i, last := LineOfEntry(lines, sep, coerce, d, e);
      }
    }
  }

  lemma EntriesAreDistinct<V>(lines: seq<Line>, sep: nat, coerce: string -> V, d: Dict)
    requires ParsesTo(lines, sep, d)
    ensures var entries := Entries(d, coerce, |d.order|);
            forall e, f :: 0 <= e < f < |entries| ==> entries[e].path != entries[f].path
  {
    forall e, f | 0 <= e < f < |d.order|
      ensures Entries(d, coerce, |d.order|)[e].path != Entries(d, coerce, |d.order|)[f].path
    {
      var i, _ := LineOfEntry(lines, sep, coerce, d, e);
      var j, _ := LineOfEntry(lines, sep, coerce, d, f);
      assert d.order[e] != d.order[f];
    }
  }

  // The entries of a good document are rebuilt.
  lemma GoodEntries<V>(lines: seq<Line>, sep: nat, coerce: string -> V, d: Dict)
    requires ParsesTo(lines, sep, d)
    ensures var entries := Entries(d, coerce, |d.order|);
            Good(lines, sep) <==> PrefixFree(entries) && forall e :: 0 <= e < |entries| ==> NameSafe(entries, e)
  {
    ApartIsPrefixFree(lines, sep, coerce, d);
    OwnNamesAreSafe(lines, sep, coerce, d);
  }

  lemma NothingElseIsRead<V(!new)>(lines: seq<Line>, sep: nat, coerce: string -> V, q: seq<string>)
    requires WellIndented(lines, sep) && Good(lines, sep)
    ensures Read(lines, coerce).Some?
    ensures At(Read(lines, coerce).value, q).Some? ==> IsRecorded(lines, sep, q)
    ensures HasNode(Read(lines, coerce).value, q) && q != [] ==> OpenedBefore(lines, sep, |lines|, q)
  {
    RecordedAreTheLines(lines, sep);
    ParsedAreListed(lines);
    var d := Parse(lines).value.data;
    var entries := Entries(d, coerce, |d.order|);
    GoodEntries(lines, sep, coerce, d);
    RebuildSpec(entries);
    if HasNode(Read(lines, coerce).value, q) && q != [] {
      var e :| 0 <= e < |entries| && q < entries[e].path;
      var i, _ := LineOfEntry(lines, sep, coerce, d, e);
    }
    if At(Read(lines, coerce).value, q).Some? {
      var e :| 0 <= e < |entries| && entries[e].path == q;
      var i, _ := LineOfEntry(lines, sep, coerce, d, e);
    }
  }

  /**
    Reading a well-indented document gives every recorded path the content of the last line that has it,
    exactly if no recorded path begins another one and every dictionary above a line that has the key of the
    line is opened by an earlier one. Then there is no other leaf. Dictionaries may be opened again, and lines
    may repeat.
  */
  lemma ReadIsTheDocument<V(!new)>(lines: seq<Line>, sep: nat, coerce: string -> V)
    requires WellIndented(lines, sep)
    ensures ReadsAsWritten(lines, sep, coerce) <==> Good(lines, sep)
    ensures Good(lines, sep) ==>
              forall q :: At(Read(lines, coerce).value, q).Some? ==> IsRecorded(lines, sep, q)
  {
    RecordedAreTheLines(lines, sep);
    ParsedAreListed(lines);
    var d := Parse(lines).value.data;
    var entries := Entries(d, coerce, |d.order|);
    EntriesAreDistinct(lines, sep, coerce, d);
    GoodEntries(lines, sep, coerce, d);
    RebuildIsFaithful(entries);
    if Read(lines, coerce).Some? {
      EntriesAreTheLines(lines, sep, coerce, d, Read(lines, coerce).value);
    }
    if Good(lines, sep) {
      forall q | At(Read(lines, coerce).value, q).Some? ensures IsRecorded(lines, sep, q) {
        NothingElseIsRead(lines, sep, coerce, q);
      }
    }
  }

  /** No recorded path begins another one if no recorded line has the path of the line of a dictionary. */
  lemma LeavesAndHeadersApart(lines: seq<Line>, sep: nat)
    requires WellIndented(lines, sep)
    requires forall i, k :: 0 <= i < |lines| && 0 <= k < |lines| && Records(lines[i]) && lines[k].content == "" ==>
               Path(lines, sep, i) != Path(lines, sep, k)
    ensures Apart(lines, sep)
  {
    forall i, j | 0 <= i < |lines| && 0 <= j < |lines| && Records(lines[i]) && Records(lines[j])
                  && Path(lines, sep, i) <= Path(lines, sep, j)
      ensures Path(lines, sep, i) == Path(lines, sep, j)
    {
      var path, longer := Path(lines, sep, i), Path(lines, sep, j);
      assert path == longer[..|path|];
      if |path| < |longer| {
        var k := Ancestor(lines, sep, j + 1, |path| - 1);
      }
    }
  }

  // The last line that is recorded at a path gives it a value.
  ghost predicate Says<V>(lines: seq<Line>, sep: nat, coerce: string -> V, path: seq<string>, value: V)
    requires sep > 0
  {
    exists l :: 0 <= l < |lines| && LastOfName(lines, sep, l, |lines|) && Path(lines, sep, l) == path
                && coerce(lines[l].content) == value
  }

  // A recorded line has a path that is the beginning of another one, or that path itself.
  ghost predicate StandsFor(lines: seq<Line>, sep: nat, path: seq<string>)
    requires sep > 0
  {
    exists i :: 0 <= i < |lines| && Records(lines[i]) && Path(lines, sep, i) <= path
  }

  // The values and the leaves of what is read are those of the lines.
  lemma ReadAt<V(!new)>(lines: seq<Line>, sep: nat, coerce: string -> V, path: seq<string>, value: V)
    requires WellIndented(lines, sep) && Good(lines, sep)
    ensures Read(lines, coerce).Some?
    ensures At(Read(lines, coerce).value, path) == Some(value) <==> Says(lines, sep, coerce, path, value)
  {
    ReadIsTheDocument(lines, sep, coerce);
    var t := Read(lines, coerce).value;
    if At(t, path) == Some(value) {
      var i :| 0 <= i < |lines| && Records(lines[i]) && Path(lines, sep, i) == path;
      var l := LastLine(lines, sep, i, |lines|);
      NamesAreOfPaths(lines, sep, i, l);
      assert At(t, Path(lines, sep, l)) == Some(coerce(lines[l].content));
    }
  }

  lemma RecordedHasAValue<V(!new)>(lines: seq<Line>, sep: nat, coerce: string -> V, i: nat)
    requires WellIndented(lines, sep) && Good(lines, sep) && i < |lines| && Records(lines[i])
    ensures Read(lines, coerce).Some? && At(Read(lines, coerce).value, Path(lines, sep, i)).Some?
  {
    ReadIsTheDocument(lines, sep, coerce);
    var l := LastLine(lines, sep, i, |lines|);
    NamesAreOfPaths(lines, sep, i, l);
    assert At(Read(lines, coerce).value, Path(lines, sep, l)).Some?;
  }

  // A leaf above a path is a line that stands for it.
  lemma LeafStandsFor<V(!new)>(lines: seq<Line>, sep: nat, coerce: string -> V, path: seq<string>, k: nat)
    requires WellIndented(lines, sep) && Good(lines, sep) && k <= |path|
    ensures Read(lines, coerce).Some?
    ensures At(Read(lines, coerce).value, path[..k]).Some? ==> StandsFor(lines, sep, path)
  {
    NothingElseIsRead(lines, sep, coerce, path[..k]);
    assert path[..k] <= path;
  }

  lemma ReadCovers<V(!new)>(lines: seq<Line>, sep: nat, coerce: string -> V, path: seq<string>)
    requires WellIndented(lines, sep) && Good(lines, sep)
    ensures Read(lines, coerce).Some?
    ensures Covers(Read(lines, coerce).value, path) <==> StandsFor(lines, sep, path)
  {
    LeafStandsFor(lines, sep, coerce, path, 0);
    var t := Read(lines, coerce).value;
    CoversIsPrefix(t, path);
    if Covers(t, path) {
      var k :| 0 <= k <= |path| && At(t, path[..k]).Some?;
      LeafStandsFor(lines, sep, coerce, path, k);
    }
    if StandsFor(lines, sep, path) {
      var i :| 0 <= i < |lines| && Records(lines[i]) && Path(lines, sep, i) <= path;
      RecordedHasAValue(lines, sep, coerce, i);
      assert path[..|Path(lines, sep, i)|] == Path(lines, sep, i);
    }
  }

  // A dictionary with something in it is opened by a line below it.
  lemma ReadFullNode<V(!new)>(lines: seq<Line>, sep: nat, coerce: string -> V, path: seq<string>)
    requires WellIndented(lines, sep) && Good(lines, sep) && path != []
    ensures Read(lines, coerce).Some?
    ensures HasFullNode(Read(lines, coerce).value, path) <==> OpenedBefore(lines, sep, |lines|, path)
  {
    NothingElseIsRead(lines, sep, coerce, path);
    var t := Read(lines, coerce).value;
    FullNodesAreNodes(t, path);
    if j :| 0 <= j < |lines| && Records(lines[j]) && path < Path(lines, sep, j) {
      RecordedHasAValue(lines, sep, coerce, j);
      LeafBelowIsFull(t, path, Path(lines, sep, j));
    }
  }
}
