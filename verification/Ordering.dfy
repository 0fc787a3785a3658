/** Going through a finite set of ids in ascending order, as a `std::map` does. */
module Ordering {
  ghost function Least(s: set<nat>): (m: nat)
    requires s != {}
    ensures m in s && forall x :: x in s ==> m <= x
  {
    var x :| x in s;
    assert forall y :: y in s ==> y == x || y in s - {x};
    if s - {x} == {} then x
    else
      var m := Least(s - {x});
      if x < m then x else m
  }

  ghost function Ascending(s: set<nat>): seq<nat> {
    if s == {} then [] else [Least(s)] + Ascending(s - {Least(s)})
  }

  /** Every element comes exactly once, after all smaller ones. */
  lemma {:induction false} AscendingElements(s: set<nat>)
    ensures forall x :: x in Ascending(s) <==> x in s
    ensures forall i, j :: 0 <= i < j < |Ascending(s)| ==> Ascending(s)[i] < Ascending(s)[j]
  {
    if s != {} {
      var m := Least(s);
      var rest := Ascending(s - {m});
      AscendingElements(s - {m});
      forall i, j | 0 <= i < j < |Ascending(s)|
        ensures Ascending(s)[i] < Ascending(s)[j]
      {
        assert rest[j - 1] in rest;
        assert i > 0 ==> rest[i - 1] < rest[j - 1];
      }
    }
  }

  /** Smaller elements come earlier. */
  lemma AscendingBefore(s: set<nat>, k: nat, x: nat)
    requires k < |Ascending(s)| && x in s && x < Ascending(s)[k]
    ensures x in Ascending(s)[..k]
  {
    AscendingElements(s);
    var j :| 0 <= j < |Ascending(s)| && Ascending(s)[j] == x;
    assert j < k;
  }

  /** The next key of an ordered map. */
  method First(s: set<nat>) returns (x: nat)
    requires s != {}
    ensures x in s && forall y :: y in s ==> x <= y
  {
    ghost var least := Least(s);
    assert least in s && forall y :: y in s ==> least <= y;
    x :| x in s && forall y :: y in s ==> x <= y;
  }
}
