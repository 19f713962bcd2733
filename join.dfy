/**
 Python's `" ".join`, shared by the word-cloud input (the processed titles
 joined together) and the topic report (the top words of a topic joined on
 one line).
 */
module SpaceJoin {

  /**
   Python's `" ".join(ts)`: joining nothing gives the empty string, joining
   one string gives it unchanged, and otherwise the result holds every string
   plus one separator between neighbours (see `JoinConcat` for where).
   */
  function Join(ts: seq<string>): (r: string)
    ensures ts == [] ==> r == ""
    ensures |ts| == 1 ==> r == ts[0]
    ensures ts != [] ==> |r| == TotalLength(ts) + |ts| - 1
  {
    if |ts| == 0 then ""
    else if |ts| == 1 then ts[0]
    else ts[0] + " " + Join(ts[1..])
  }

  /** The summed length of all strings of `ts`. */
  function TotalLength(ts: seq<string>): nat {
    if ts == [] then 0 else |ts[0]| + TotalLength(ts[1..])
  }

  /** Joining two non-empty lists is joining each and putting one space between. */
  lemma {:induction false} JoinConcat(a: seq<string>, b: seq<string>)
    requires a != [] && b != []
    ensures Join(a + b) == Join(a) + " " + Join(b)
  {
    if |a| == 1 {
      assert (a + b)[1..] == b;
    } else {
      assert (a + b)[1..] == a[1..] + b;
      JoinConcat(a[1..], b);
    }
  }
}
