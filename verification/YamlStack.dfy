/** The parser that keeps a stack of keys, and the proof that the one that keeps a string follows it. */
module YamlStack {
  import opened Messages
  import opened Strings
  import opened YamlLines

  datatype Stacked = Stacked(keys: seq<string>, separation: nat, data: Dict)

  const EMPTY := Stacked([], 0, Dict([], map[]))

  // The keys that stay open above a line. A line that is indented by less than one step gets an empty one.
  function Above(keys: seq<string>, tabs: nat): seq<string>
    requires tabs <= |keys|
  {
    if tabs == 0 && keys != [] then [""] else keys[..tabs]
  }

  // A line goes at most one deeper than the open keys. It opens its key, unless it has content and stands right
  // below the last one.
  function StackLine(s: Stacked, line: Line): Option<Stacked> {
    if line.spaces == 0 then Some(s.(keys := [line.key]))
    else
      var separation := if s.separation == 0 then line.spaces else s.separation;
      var tabs := line.spaces / separation;
      if tabs > |s.keys| then None
      else
        var path := Above(s.keys, tabs) + [line.key];
        var keys := if tabs == |s.keys| && line.content != "" then s.keys else path;
        var data := if line.content == "" then s.data else Put(s.data, Join(path, ':'), line.content);
        Some(Stacked(keys, separation, data))
  }

  function StackParse(lines: seq<Line>): Option<Stacked> {
    if lines == [] then Some(EMPTY)
    else
      match StackParse(lines[..|lines| - 1])
      case None => None
      case Some(s) => StackLine(s, lines[|lines| - 1])
  }

  // The string is the open keys, each with a colon behind it.
  ghost predicate Stands(p: Parser, s: Stacked) {
    && Free(s.keys, ':') && p.preamble == Terminated(s.keys, ':')
    && p.separation == s.separation && p.data == s.data
  }

  ghost predicate SameOutcome(p: Option<Parser>, s: Option<Stacked>) {
    (p.Some? <==> s.Some?) && (p.Some? ==> Stands(p.value, s.value))
  }

  // A line that is indented by less than one step.
  lemma ShallowLine(p: Parser, s: Stacked, line: Line)
    requires Stands(p, s) && ':' !in line.key && s.keys != []
    requires line.spaces > 0 && line.spaces / Separated(p, line).separation == 0
    ensures SameOutcome(ParseLine(p, line), StackLine(s, line))
  {
    SplitTerminated(s.keys, ':');
    var path := ["", line.key];
    assert Join(Split(p.preamble, ':')[..0], ':') + [':'] + line.key == Join(path, ':');
    JoinTerminated(path, ':');
    assert [""] + [line.key] == path;
  }

  lemma DeepLine(p: Parser, s: Stacked, line: Line)
    requires Stands(p, s) && line.spaces > 0 && line.spaces / Separated(p, line).separation > |s.keys|
    ensures SameOutcome(ParseLine(p, line), StackLine(s, line))
  {
    SplitTerminated(s.keys, ':');
  }

  // The first line, if it is as if it stood at the top.
  lemma FirstLine(p: Parser, s: Stacked, line: Line)
    requires Stands(p, s) && ':' !in line.key && s.keys == []
    requires line.spaces > 0 && line.spaces / Separated(p, line).separation == 0
    ensures SameOutcome(ParseLine(p, line), StackLine(s, line))
  {
    assert p.preamble == "" && "" + line.key == line.key == Join([line.key], ':');
    assert Terminated([line.key], ':') == "" + line.key + [':'];
  }

  lemma LineFollows(p: Parser, s: Stacked, line: Line)
    requires Stands(p, s) && ':' !in line.key
    ensures SameOutcome(ParseLine(p, line), StackLine(s, line))
  {
    if line.spaces == 0 {
      assert Terminated([line.key], ':') == line.key + [':'];
    } else {
      var tabs := line.spaces / Separated(p, line).separation;
      if tabs > |s.keys| {
        DeepLine(p, s, line);
      } else if tabs > 0 {
        ParseIndented(p, s.keys, line, tabs);
      } else if s.keys != [] {
        ShallowLine(p, s, line);
      } else {
        FirstLine(p, s, line);
      }
    }
  }

  /**
    For every document, well-indented or not, the parser that keeps its place in a string records the same as
    one that keeps a stack of keys, and fails on the same documents.
  */
  lemma {:induction false} StringFollowsStack(lines: seq<Line>)
    requires forall i :: 0 <= i < |lines| ==> ':' !in lines[i].key
    ensures SameOutcome(Parse(lines), StackParse(lines))
  {
    if lines != [] {
      var init := lines[..|lines| - 1];
      StringFollowsStack(init);
      if Parse(init).Some? {
        LineFollows(Parse(init).value, StackParse(init).value, lines[|lines| - 1]);
      }
    }
  }
}
