/**
  The indentation parser of parameter files. It keeps its place in one string: the names of the open
  dictionaries, each with a colon behind it.
*/
module YamlLines {
  import opened Messages
  import opened Strings

  // A line with a colon: its indentation, the key before the first colon, and what follows it, which is
  // empty for the line of a dictionary.
  datatype Line = Line(spaces: nat, key: string, content: string)

  // A dictionary, with its keys in the order in which they were first set.
  datatype Dict = Dict(order: seq<string>, values: map<string, string>)

  function Put(d: Dict, key: string, value: string): Dict {
    Dict(if key in d.values then d.order else d.order + [key], d.values[key := value])
  }

  // The indentation of the first indented line is the separation; it is 0 before that line.
  datatype Parser = Parser(preamble: string, separation: nat, data: Dict)

  const START := Parser("", 0, Dict([], map[]))

  function Separated(p: Parser, line: Line): (q: Parser)
    requires line.spaces > 0
    ensures q.separation > 0
  {
    if p.separation == 0 then p.(separation := line.spaces) else p
  }

  // A line that goes deeper than the place by more than one is an error.
  function ParseLine(p: Parser, line: Line): Option<Parser> {
    if line.spaces == 0 then Some(p.(preamble := line.key + [':']))
    else
      var q := Separated(p, line);
      var tabs := line.spaces / q.separation;
      if tabs == Count(q.preamble, ':') then
        if line.content != "" then Some(q.(data := Put(q.data, q.preamble + line.key, line.content)))
        else Some(q.(preamble := q.preamble + line.key + [':']))
      else if tabs > Count(q.preamble, ':') then None
      else
        var name := Join(Split(q.preamble, ':')[..tabs], ':') + [':'] + line.key;
        var data := if line.content != "" then Put(q.data, name, line.content) else q.data;
        Some(q.(preamble := name + [':'], data := data))
  }

  function Parse(lines: seq<Line>): Option<Parser> {
    if lines == [] then Some(START)
    else
      match Parse(lines[..|lines| - 1])
      case None => None
      case Some(p) => ParseLine(p, lines[|lines| - 1])
  }

  lemma {:induction false} ErrorsStay(lines: seq<Line>, n: nat)
    requires n <= |lines| && Parse(lines[..n]).None?
    ensures Parse(lines).None?
    decreases |lines|
  {
    if n < |lines| {
      assert lines[..|lines| - 1][..n] == lines[..n];
      ErrorsStay(lines[..|lines| - 1], n);
    } else {
      assert lines[..n] == lines;
    }
  }

  method MergeYamlKeys(lines: seq<Line>) returns (r: Option<Dict>)
    ensures r == match Parse(lines) case None => None case Some(p) => Some(p.data)
  {
    var preamble, separation, data := "", 0, Dict([], map[]);
    for i := 0 to |lines|
      invariant Parse(lines[..i]) == Some(Parser(preamble, separation, data))
    {
      assert lines[..i + 1][..i] == lines[..i];
      var line := lines[i];
      if line.spaces == 0 {
        preamble := line.key + [':'];
        continue;
      }
      if separation == 0 {
        separation := line.spaces;
      }
      var tabs := line.spaces / separation;
      if tabs == Count(preamble, ':') {
        if line.content != "" {
          data := Put(data, preamble + line.key, line.content);
        } else {
          preamble := preamble + line.key + [':'];
        }
      } else if tabs > Count(preamble, ':') {
        ErrorsStay(lines, i + 1);
        return None;
      } else {
        preamble := Join(Split(preamble, ':')[..tabs], ':') + [':'] + line.key + [':'];
        if line.content != "" {
          data := Put(data, preamble[..|preamble| - 1], line.content);
        }
      }
    }
    assert lines[..|lines|] == lines;
    r := Some(data);
  }

  // What the document means, by the lines alone.

  function Depth(line: Line, sep: nat): nat
    requires sep > 0
  {
    line.spaces / sep
  }

  // One step of indentation at most goes down at a time, and only below the line of a dictionary.
  predicate WellIndented(lines: seq<Line>, sep: nat) {
    && sep > 0
    && (forall i :: 0 <= i < |lines| ==> lines[i].spaces % sep == 0 && ':' !in lines[i].key)
    && (lines != [] ==> Depth(lines[0], sep) == 0)
    && (forall i :: 0 < i < |lines| ==>
          Depth(lines[i], sep) <= Depth(lines[i - 1], sep) + (if lines[i - 1].content == "" then 1 else 0))
  }

  // The key of the nearest line before line i that has depth d.
  function KeyAbove(lines: seq<Line>, sep: nat, i: nat, d: nat): string
    requires sep > 0 && i <= |lines|
  {
    if i == 0 then ""
    else if Depth(lines[i - 1], sep) == d then lines[i - 1].key
    else KeyAbove(lines, sep, i - 1, d)
  }

  // The keys of the nearest preceding lines at each smaller depth, and the key of the line.
  function Path(lines: seq<Line>, sep: nat, i: nat): (path: seq<string>)
    requires sep > 0 && i < |lines|
    ensures |path| == Depth(lines[i], sep) + 1
  {
    seq(Depth(lines[i], sep), d requires 0 <= d => KeyAbove(lines, sep, i, d)) + [lines[i].key]
  }

  // A line with content is recorded, except at the top.
  predicate Records(line: Line) {
    line.content != "" && line.spaces > 0
  }

  // The last line with a name gives its content.
  function Document(lines: seq<Line>, sep: nat, n: nat): map<string, string>
    requires sep > 0 && n <= |lines|
  {
    if n == 0 then map[]
    else if Records(lines[n - 1])
    then Document(lines, sep, n - 1)[Name(lines, sep, n - 1) := lines[n - 1].content]
    else Document(lines, sep, n - 1)
  }

  function Name(lines: seq<Line>, sep: nat, i: nat): string
    requires sep > 0 && i < |lines|
  {
    Join(Path(lines, sep, i), ':')
  }

  // The names in the order in which they are first recorded.
  function Names(lines: seq<Line>, sep: nat, n: nat): seq<string>
    requires sep > 0 && n <= |lines|
  {
    if n == 0 then []
    else
      var names := Names(lines, sep, n - 1);
      if Records(lines[n - 1]) && Name(lines, sep, n - 1) !in names then names + [Name(lines, sep, n - 1)] else names
  }

  // The stack of a parser that keeps one: the path of line n - 1, if there is one.
  function Stack(lines: seq<Line>, sep: nat, n: nat): seq<string>
    requires sep > 0 && n <= |lines|
  {
    if n == 0 then [] else Path(lines, sep, n - 1)
  }

  // A line keeps the stack above its depth, and puts its key on it.
  lemma StackStep(lines: seq<Line>, sep: nat, n: nat)
    requires WellIndented(lines, sep) && n < |lines|
    ensures var depth := Depth(lines[n], sep);
            && depth <= |Stack(lines, sep, n)|
            && Path(lines, sep, n) == Stack(lines, sep, n)[..depth] + [lines[n].key]
  {
  }

  lemma {:induction false} StackIsFree(lines: seq<Line>, sep: nat, n: nat)
    requires WellIndented(lines, sep) && n <= |lines|
    ensures Free(Stack(lines, sep, n), ':')
  {
    if n > 0 {
      StackIsFree(lines, sep, n - 1);
      StackStep(lines, sep, n - 1);
    }
  }

  // The place that the string keeps is the stack, or what is below its top if that is a line with content.
  ghost predicate Follows(p: Parser, lines: seq<Line>, sep: nat, n: nat)
    requires sep > 0 && n <= |lines|
  {
    var stack := Stack(lines, sep, n);
    && (p.separation == sep || (p.separation == 0 && forall i :: 0 <= i < n ==> lines[i].spaces == 0))
    && (p.preamble == Terminated(stack, ':')
        || (n > 0 && lines[n - 1].content != "" && p.preamble == Terminated(stack[..|stack| - 1], ':')))
    && p.data.values == Document(lines, sep, n)
    && p.data.order == Names(lines, sep, n)
  }

  // The place is known by its keys, and the depth of the next line is not below it.
  lemma Place(p: Parser, lines: seq<Line>, sep: nat, n: nat) returns (keys: seq<string>)
    requires WellIndented(lines, sep) && n < |lines| && Follows(p, lines, sep, n)
    ensures p.preamble == Terminated(keys, ':') && Free(keys, ':')
    ensures Depth(lines[n], sep) <= |keys|
    ensures Path(lines, sep, n) == keys[..Depth(lines[n], sep)] + [lines[n].key]
  {
    StackStep(lines, sep, n);
    StackIsFree(lines, sep, n);
    var stack := Stack(lines, sep, n);
    if p.preamble == Terminated(stack, ':') {
      keys := stack;
    } else {
      keys := stack[..|stack| - 1];
      assert stack[..Depth(lines[n], sep)] == keys[..Depth(lines[n], sep)];
    }
  }

  // The indentation of the first indented line is one step.
  lemma SeparatedStep(p: Parser, lines: seq<Line>, sep: nat, n: nat)
    requires WellIndented(lines, sep) && n < |lines| && Follows(p, lines, sep, n) && lines[n].spaces > 0
    ensures Separated(p, lines[n]) == p.(separation := sep)
  {
  }

  // The name that the parser puts together for a line at a depth, from a place known by its keys.
  lemma NameOfPath(keys: seq<string>, key: string, depth: nat)
    requires Free(keys, ':') && 0 < depth <= |keys|
    ensures Count(Terminated(keys, ':'), ':') == |keys|
    ensures var path, cut := keys[..depth] + [key], Split(Terminated(keys, ':'), ':')[..depth];
            && Join(cut, ':') + [':'] == Terminated(keys[..depth], ':')
            && Terminated(keys[..depth], ':') + key == Join(path, ':')
            && Join(path, ':') + [':'] == Terminated(path, ':')
  {
    SplitTerminated(keys, ':');
    assert Split(Terminated(keys, ':'), ':')[..depth] == keys[..depth];
    JoinTerminated(keys[..depth], ':');
    JoinSnoc(keys[..depth], key, ':');
    JoinTerminated(keys[..depth] + [key], ':');
  }

  // What an indented line does to such a place.
  lemma ParseIndented(p: Parser, keys: seq<string>, line: Line, depth: nat)
    requires Free(keys, ':') && p.preamble == Terminated(keys, ':') && 0 < depth <= |keys|
    requires line.spaces > 0 && line.spaces / Separated(p, line).separation == depth
    ensures var path := keys[..depth] + [line.key];
            ParseLine(p, line) == Some(Parser(
              if line.content != "" && depth == |keys| then p.preamble else Terminated(path, ':'),
              Separated(p, line).separation,
              if line.content != "" then Put(p.data, Join(path, ':'), line.content) else p.data))
  {
    NameOfPath(keys, line.key, depth);
    if depth == |keys| {
      assert keys[..depth] == keys;
    }
  }

  lemma DepthOfIndented(lines: seq<Line>, sep: nat, n: nat)
    requires WellIndented(lines, sep) && n < |lines|
    ensures lines[n].spaces > 0 <==> Depth(lines[n], sep) > 0
  {
  }

  lemma {:induction false} NamesAreOfDocument(lines: seq<Line>, sep: nat, n: nat, name: string)
    requires sep > 0 && n <= |lines|
    ensures name in Names(lines, sep, n) <==> name in Document(lines, sep, n)
  {
    if n > 0 {
      NamesAreOfDocument(lines, sep, n - 1, name);
    }
  }

  lemma ParseStepBelow(p: Parser, lines: seq<Line>, sep: nat, n: nat)
    requires WellIndented(lines, sep) && n < |lines| && Follows(p, lines, sep, n) && lines[n].spaces > 0
    ensures ParseLine(p, lines[n]).Some? && Follows(ParseLine(p, lines[n]).value, lines, sep, n + 1)
  {
    var keys := Place(p, lines, sep, n);
    SeparatedStep(p, lines, sep, n);
    DepthOfIndented(lines, sep, n);
    var depth := Depth(lines[n], sep);
    ParseIndented(p, keys, lines[n], depth);
    var path := Path(lines, sep, n);
    assert path[..|path| - 1] == keys[..depth];
    assert depth == |keys| ==> keys[..depth] == keys;
    NamesAreOfDocument(lines, sep, n, Name(lines, sep, n));
  }

  lemma ParseStep(p: Parser, lines: seq<Line>, sep: nat, n: nat)
    requires WellIndented(lines, sep) && n < |lines| && Follows(p, lines, sep, n)
    ensures ParseLine(p, lines[n]).Some? && Follows(ParseLine(p, lines[n]).value, lines, sep, n + 1)
  {
    if lines[n].spaces == 0 {
      var path := Path(lines, sep, n);
      assert path == [lines[n].key];
      assert Terminated(path, ':') == lines[n].key + [':'];
    } else {
      ParseStepBelow(p, lines, sep, n);
    }
  }

  /**
    A well-indented document of any depth is read without an error, and each line with content below the
    top is recorded under the keys of its nearest preceding lines at each smaller depth and its own.
  */
  lemma {:induction false} ParseIsTheDocument(lines: seq<Line>, sep: nat, n: nat)
    requires WellIndented(lines, sep) && n <= |lines|
    ensures Parse(lines[..n]).Some? && Follows(Parse(lines[..n]).value, lines, sep, n)
  {
    if n > 0 {
      ParseIsTheDocument(lines, sep, n - 1);
      assert lines[..n][..n - 1] == lines[..n - 1];
      ParseStep(Parse(lines[..n - 1]).value, lines, sep, n - 1);
    }
  }

  // Line i is recorded, and its name is not recorded again before line n.
  ghost predicate LastOfName(lines: seq<Line>, sep: nat, i: nat, n: nat)
    requires sep > 0 && i < n <= |lines|
  {
    Records(lines[i]) && forall j :: i < j < n && Records(lines[j]) ==> Name(lines, sep, j) != Name(lines, sep, i)
  }

  lemma {:induction false} DocumentSpec(lines: seq<Line>, sep: nat, n: nat)
    requires sep > 0 && n <= |lines|
    ensures forall name :: name in Document(lines, sep, n) <==>
              exists i :: 0 <= i < n && Records(lines[i]) && name == Name(lines, sep, i)
    ensures forall i :: 0 <= i < n && LastOfName(lines, sep, i, n) ==>
              Document(lines, sep, n)[Name(lines, sep, i)] == lines[i].content
  {
    if n > 0 {
      DocumentSpec(lines, sep, n - 1);
      forall i | 0 <= i < n - 1 && LastOfName(lines, sep, i, n)
        ensures Document(lines, sep, n)[Name(lines, sep, i)] == lines[i].content
      {
        assert LastOfName(lines, sep, i, n - 1);
      }
    }
  }

  // Line i is the first that is recorded under its name.
  ghost predicate FirstOfName(lines: seq<Line>, sep: nat, i: nat)
    requires sep > 0 && i < |lines|
  {
    Records(lines[i]) && forall j :: 0 <= j < i && Records(lines[j]) ==> Name(lines, sep, j) != Name(lines, sep, i)
  }

  lemma NamesSpec(lines: seq<Line>, sep: nat, n: nat, name: string)
    requires sep > 0 && n <= |lines|
    ensures name in Names(lines, sep, n) <==>
              exists i :: 0 <= i < n && Records(lines[i]) && name == Name(lines, sep, i)
  {
  }

  // The line that first records a name; the names before it are those of the lines before.
  lemma {:induction false} LineOfName(lines: seq<Line>, sep: nat, n: nat, e: nat) returns (i: nat)
    requires sep > 0 && n <= |lines| && e < |Names(lines, sep, n)|
    ensures i < n && FirstOfName(lines, sep, i) && Names(lines, sep, n)[e] == Name(lines, sep, i)
    ensures Names(lines, sep, i) == Names(lines, sep, n)[..e]
  {
    if e < |Names(lines, sep, n - 1)| {
      i := LineOfName(lines, sep, n - 1, e);
    } else {
      i := n - 1;
      NamesSpec(lines, sep, i, Name(lines, sep, i));
    }
  }

  // The last line with the name of another one.
  lemma {:induction false} LastLine(lines: seq<Line>, sep: nat, i: nat, n: nat) returns (l: nat)
    requires sep > 0 && i < n <= |lines| && Records(lines[i])
    ensures l < n && LastOfName(lines, sep, l, n) && Name(lines, sep, l) == Name(lines, sep, i)
    decreases n
  {
    if i == n - 1 || (Records(lines[n - 1]) && Name(lines, sep, n - 1) == Name(lines, sep, i)) {
      l := n - 1;
    } else {
      l := LastLine(lines, sep, i, n - 1);
    }
  }

  /**
    Of a well-indented document exactly the lines with content below the top are recorded, each under its
    path, in the order of their first appearance, and with the content of the last line of that path.
  */
  lemma RecordedAreTheLines(lines: seq<Line>, sep: nat)
    requires WellIndented(lines, sep)
    ensures Parse(lines).Some?
    ensures var values := Parse(lines).value.data.values;
            && (forall name :: name in values <==>
                  exists i :: 0 <= i < |lines| && Records(lines[i]) && name == Name(lines, sep, i))
            && (forall i :: 0 <= i < |lines| && LastOfName(lines, sep, i, |lines|) ==>
                  values[Name(lines, sep, i)] == lines[i].content)
    ensures Parse(lines).value.data.order == Names(lines, sep, |lines|)
  {
    ParseIsTheDocument(lines, sep, |lines|);
    assert lines[..|lines|] == lines;
    DocumentSpec(lines, sep, |lines|);
  }

  // Names are equal only for equal paths.
  lemma NamesAreOfPaths(lines: seq<Line>, sep: nat, i: nat, j: nat)
    requires WellIndented(lines, sep) && i < |lines| && j < |lines| && Name(lines, sep, i) == Name(lines, sep, j)
    ensures Path(lines, sep, i) == Path(lines, sep, j)
  {
    StackIsFree(lines, sep, i + 1);
    StackIsFree(lines, sep, j + 1);
    SplitJoin(Path(lines, sep, i), ':');
    SplitJoin(Path(lines, sep, j), ':');
  }

  /** The content of a line is lost exactly when it stands at the top: the parser takes its key alone. */
  lemma ContentAtTheTopIsLost(lines: seq<Line>, sep: nat, i: nat)
    requires WellIndented(lines, sep) && i < |lines| && lines[i].content != ""
    ensures Parse(lines).Some?
    ensures Name(lines, sep, i) !in Parse(lines).value.data.values <==> lines[i].spaces == 0
  {
    RecordedAreTheLines(lines, sep);
    if lines[i].spaces == 0 && Name(lines, sep, i) in Parse(lines).value.data.values {
      var j :| 0 <= j < |lines| && Records(lines[j]) && Name(lines, sep, i) == Name(lines, sep, j);
      NamesAreOfPaths(lines, sep, i, j);
      DepthOfIndented(lines, sep, j);
      assert false;
    }
  }

  // A dictionary's order lists its keys, each once.
  ghost predicate Listed(d: Dict) {
    && (forall key :: key in d.order <==> key in d.values)
    && (forall i, j :: 0 <= i < j < |d.order| ==> d.order[i] != d.order[j])
  }

  lemma PutKeepsListed(d: Dict, key: string, value: string)
    requires Listed(d)
    ensures Listed(Put(d, key, value))
  {
  }

  lemma {:induction false} ParsedAreListed(lines: seq<Line>)
    requires Parse(lines).Some?
    ensures Listed(Parse(lines).value.data)
  {
    if lines != [] {
      var init := lines[..|lines| - 1];
      ParsedAreListed(init);
      var before, after := Parse(init).value.data, Parse(lines).value.data;
      if after != before {
        var key, value :| after == Put(before, key, value);
        PutKeepsListed(before, key, value);
      }
    }
  }

  // Every open dictionary is one of an earlier line without content, at each depth above the last.
  lemma {:induction false} Ancestor(lines: seq<Line>, sep: nat, n: nat, d: nat) returns (k: nat)
    requires WellIndented(lines, sep) && n <= |lines| && d < |Stack(lines, sep, n)|
    ensures k < n && Path(lines, sep, k) == Stack(lines, sep, n)[..d + 1]
    ensures d < |Stack(lines, sep, n)| - 1 ==> k < n - 1 && lines[k].content == ""
  {
    var stack := Stack(lines, sep, n);
    StackStep(lines, sep, n - 1);
    if d == |stack| - 1 {
      k := n - 1;
      assert stack[..d + 1] == stack;
    } else {
      var below := Stack(lines, sep, n - 1);
      assert stack[..d + 1] == below[..d + 1];
      if d == |below| - 1 {
        k := n - 2;
        assert below[..d + 1] == below;
      } else {
        k := Ancestor(lines, sep, n - 1, d);
      }
    }
  }
}
