/** Finite sets of numbers. */
module Sets {
  /** A number above all of these. */
  lemma {:induction false} Above(s: set<nat>) returns (n: nat)
    ensures forall k :: k in s ==> k < n
  {
    if s == {} {
      n := 0;
    } else {
      var x :| x in s;
      var m := Above(s - {x});
      n := if x < m then m else x + 1;
      forall k | k in s ensures k < n {
        if k != x { assert k in s - {x}; }
      }
    }
  }
}
