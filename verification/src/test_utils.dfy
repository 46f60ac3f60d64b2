/** The list difference the modify operation uses to find outdated nights. */
module TestUtils {
  import opened Context

  /** `getSubtractedDate(set1, set2)`: the distinct elements of `set1` that
      do not occur in `set2`. */
  function GetSubtractedDate(set1: seq<Date>, set2: seq<Date>): (r: set<Date>)
    ensures forall x :: x in r <==> x in set1 && x !in set2
  {
    if |set1| == 0 then {}
    else (if set1[0] in set2 then {} else {set1[0]}) + GetSubtractedDate(set1[1..], set2)
  }

  /** Duplicates collapse: the result is never larger than `set1`. */
  lemma {:induction false} SubtractedDateSize(set1: seq<Date>, set2: seq<Date>)
    ensures |GetSubtractedDate(set1, set2)| <= |set1|
  {
    if |set1| > 0 {
      SubtractedDateSize(set1[1..], set2);
    }
  }

  /** Nothing is left when every element of `set1` occurs in `set2`. */
  lemma SubtractedDateEmptyWhenContained(set1: seq<Date>, set2: seq<Date>)
    requires forall x | x in set1 :: x in set2
    ensures GetSubtractedDate(set1, set2) == {}
  {
    var r := GetSubtractedDate(set1, set2);
    assert forall x :: x !in r;
  }
}
