/** What has happened since something else, in the history of a run. */
module History {

  // Some entry of the log is good, and none after it ends what it brought.
  ghost predicate Since<T(!new)>(log: seq<T>, good: T -> bool, ends: T -> bool) {
    exists k :: 0 <= k < |log| && good(log[k]) && forall j :: k < j < |log| ==> !ends(log[j])
  }

  lemma SinceAppend<T(!new)>(log: seq<T>, last: T, good: T -> bool, ends: T -> bool)
    ensures Since(log + [last], good, ends) <==> good(last) || (Since(log, good, ends) && !ends(last))
  {
    var longer := log + [last];
    if good(last) {
      assert good(longer[|log|]);
    } else if Since(log, good, ends) && !ends(last) {
      var k :| 0 <= k < |log| && good(log[k]) && forall j :: k < j < |log| ==> !ends(log[j]);
      assert good(longer[k]);
    }
    if Since(longer, good, ends) && !good(last) {
      var k :| 0 <= k < |longer| && good(longer[k]) && forall j :: k < j < |longer| ==> !ends(longer[j]);
      assert log[k] == longer[k] && longer[|log|] == last;
      assert forall j :: k < j < |log| ==> log[j] == longer[j];
    }
  }
}
