/** Splitting, joining and trimming of strings at one character. */
module Strings {

  // How often c occurs.
  function Count(s: string, c: char): nat {
    if s == "" then 0 else (if s[0] == c then 1 else 0) + Count(s[1..], c)
  }

  function Split(s: string, c: char): (pieces: seq<string>)
    ensures |pieces| == Count(s, c) + 1
  {
    if s == "" then [""]
    else
      var rest := Split(s[1..], c);
      if s[0] == c then [""] + rest else [[s[0]] + rest[0]] + rest[1..]
  }

  function Join(pieces: seq<string>, c: char): string {
    if pieces == [] then ""
    else if |pieces| == 1 then pieces[0]
    else pieces[0] + [c] + Join(pieces[1..], c)
  }

  // Every piece with the separator behind it.
  function Terminated(pieces: seq<string>, c: char): string {
    if pieces == [] then "" else pieces[0] + [c] + Terminated(pieces[1..], c)
  }

  function RStrip(s: string, c: char): (r: string)
    ensures r <= s && (r != "" ==> r[|r| - 1] != c)
  {
    if s != "" && s[|s| - 1] == c then RStrip(s[..|s| - 1], c) else s
  }

  predicate Free(pieces: seq<string>, c: char) {
    forall i :: 0 <= i < |pieces| ==> c !in pieces[i]
  }

  lemma {:induction false} SplitCons(piece: string, rest: string, c: char)
    requires c !in piece
    ensures Split(piece + [c] + rest, c) == [piece] + Split(rest, c)
    ensures Count(piece + [c] + rest, c) == 1 + Count(rest, c)
  {
    var s := piece + [c] + rest;
    if piece == "" {
      assert s[1..] == rest;
    } else {
      SplitCons(piece[1..], rest, c);
      assert s[1..] == piece[1..] + [c] + rest;
      assert [piece[0]] + piece[1..] == piece;
    }
  }

  lemma {:induction false} SplitOne(piece: string, c: char)
    requires c !in piece
    ensures Split(piece, c) == [piece]
  {
    if piece != "" {
      SplitOne(piece[1..], c);
      assert [piece[0]] + piece[1..] == piece;
    }
  }

  /** Pieces without the separator are what their join splits into. */
  lemma {:induction false} SplitJoin(pieces: seq<string>, c: char)
    requires pieces != [] && Free(pieces, c)
    ensures Split(Join(pieces, c), c) == pieces
  {
    if |pieces| == 1 {
      SplitOne(pieces[0], c);
    } else {
      SplitJoin(pieces[1..], c);
      SplitCons(pieces[0], Join(pieces[1..], c), c);
    }
  }

  lemma {:induction false} SplitTerminated(pieces: seq<string>, c: char)
    requires Free(pieces, c)
    ensures Split(Terminated(pieces, c), c) == pieces + [""]
    ensures Count(Terminated(pieces, c), c) == |pieces|
  {
    if pieces != [] {
      SplitTerminated(pieces[1..], c);
      SplitCons(pieces[0], Terminated(pieces[1..], c), c);
    }
  }

  lemma {:induction false} JoinTerminated(pieces: seq<string>, c: char)
    requires pieces != []
    ensures Join(pieces, c) + [c] == Terminated(pieces, c)
  {
    if |pieces| > 1 {
      JoinTerminated(pieces[1..], c);
      assert Join(pieces, c) + [c] == pieces[0] + [c] + (Join(pieces[1..], c) + [c]);
    }
  }

  lemma {:induction false} TerminatedSnoc(pieces: seq<string>, last: string, c: char)
    ensures Terminated(pieces + [last], c) == Terminated(pieces, c) + last + [c]
  {
    if pieces != [] {
      TerminatedSnoc(pieces[1..], last, c);
      assert (pieces + [last])[1..] == pieces[1..] + [last];
    }
  }

  lemma {:induction false} JoinSnoc(pieces: seq<string>, last: string, c: char)
    ensures Join(pieces + [last], c) == Terminated(pieces, c) + last
  {
    JoinTerminated(pieces + [last], c);
    TerminatedSnoc(pieces, last, c);
    var joined, expected := Join(pieces + [last], c), Terminated(pieces, c) + last;
    assert joined + [c] == expected + [c];
    assert joined == (joined + [c])[..|joined|] && expected == (expected + [c])[..|expected|];
  }
}
