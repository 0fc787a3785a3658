/** Sums of a column of integers over a finite set of node ids. */
module Sums {
  /** The entry of a column, where a missing id counts as zero. */
  function Get(d: map<nat, int>, x: nat): int {
    if x in d then d[x] else 0
  }

  ghost function Sum(s: set<nat>, d: map<nat, int>): int {
    if s == {} then 0 else var x :| x in s; Get(d, x) + Sum(s - {x}, d)
  }

  /** Any element may be taken out first. */
  lemma {:induction false} SumPull(s: set<nat>, d: map<nat, int>, x: nat)
    requires x in s
    ensures Sum(s, d) == Get(d, x) + Sum(s - {x}, d)
  {
    var y :| y in s && Sum(s, d) == Get(d, y) + Sum(s - {y}, d);
    if y != x {
      SumPull(s - {y}, d, x);
      SumPull(s - {x}, d, y);
      assert s - {y} - {x} == s - {x} - {y};
    }
  }

  lemma {:induction false} SumUnion(a: set<nat>, b: set<nat>, d: map<nat, int>)
    requires a !! b
    ensures Sum(a + b, d) == Sum(a, d) + Sum(b, d)
  {
    if a == {} {
      assert a + b == b;
    } else {
      var x :| x in a;
      SumUnion(a - {x}, b, d);
      SumPull(a, d, x);
      SumPull(a + b, d, x);
      assert (a + b) - {x} == (a - {x}) + b;
    }
  }

  /** Two columns that agree on the set have the same sum over it. */
  lemma {:induction false} SumSame(s: set<nat>, d: map<nat, int>, e: map<nat, int>)
    requires forall x :: x in s ==> Get(d, x) == Get(e, x)
    ensures Sum(s, d) == Sum(s, e)
  {
    if s != {} {
      var x :| x in s;
      SumPull(s, d, x);
      SumPull(s, e, x);
      SumSame(s - {x}, d, e);
    }
  }

  /** Adding columns pointwise adds their sums. */
  lemma {:induction false} SumAdd(s: set<nat>, d: map<nat, int>, e: map<nat, int>, f: map<nat, int>)
    requires forall x :: x in s ==> Get(f, x) == Get(d, x) + Get(e, x)
    ensures Sum(s, f) == Sum(s, d) + Sum(s, e)
  {
    if s != {} {
      var x :| x in s;
      SumPull(s, d, x);
      SumPull(s, e, x);
      SumPull(s, f, x);
      SumAdd(s - {x}, d, e, f);
    }
  }

  lemma {:induction false} SumZero(s: set<nat>, d: map<nat, int>)
    requires forall x :: x in s ==> Get(d, x) == 0
    ensures Sum(s, d) == 0
  {
    if s != {} {
      var x :| x in s;
      SumPull(s, d, x);
      SumZero(s - {x}, d);
    }
  }

  /** Elements whose entry is zero may be left out. */
  lemma SumShrink(s: set<nat>, t: set<nat>, d: map<nat, int>)
    requires t <= s
    requires forall x :: x in s && x !in t ==> Get(d, x) == 0
    ensures Sum(s, d) == Sum(t, d)
  {
    SumUnion(t, s - t, d);
    SumZero(s - t, d);
    assert t + (s - t) == s;
  }

  /** Raising one entry raises the sum by as much. */
  lemma SumBump(s: set<nat>, d: map<nat, int>, e: map<nat, int>, x: nat, inc: int)
    requires x in s && Get(e, x) == Get(d, x) + inc
    requires forall y :: y in s && y != x ==> Get(e, y) == Get(d, y)
    ensures Sum(s, e) == Sum(s, d) + inc
  {
    SumPull(s, d, x);
    SumPull(s, e, x);
    SumSame(s - {x}, d, e);
  }

  lemma {:induction false} SumMono(s: set<nat>, d: map<nat, int>, e: map<nat, int>)
    requires forall x :: x in s ==> Get(d, x) <= Get(e, x)
    ensures Sum(s, d) <= Sum(s, e)
  {
    if s != {} {
      var x :| x in s;
      SumPull(s, d, x);
      SumPull(s, e, x);
      SumMono(s - {x}, d, e);
    }
  }
}
