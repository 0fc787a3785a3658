/** Shape of a call tree given by its parent map: ancestors, subtrees, children. */
module Forest {
  import opened Sums

  type Parents = map<nat, nat>

  /** Node 1 is the root, its parent id 0 names no node, and every other node
      hangs below a node with a smaller id. */
  ghost predicate WellFormed(par: Parents) {
    && 0 !in par
    && 1 in par && par[1] == 0
    && forall x {:trigger Hangs(par, x)} :: x in par ==> Hangs(par, x)
  }

  /** `big` has all the nodes of `par`, with the same parents. */
  ghost predicate Extends(par: Parents, big: Parents) {
    forall y :: y in par ==> y in big && big[y] == par[y]
  }

  ghost predicate Hangs(par: Parents, x: nat)
    requires x in par
  {
    x == 1 || (par[x] in par && par[x] < x)
  }

  /** `n` is `x` or one of its ancestors. */
  ghost predicate Under(par: Parents, n: nat, x: nat)
    decreases x
  {
    x in par && (n == x || (par[x] < x && Under(par, n, par[x])))
  }

  ghost function Subtree(par: Parents, n: nat): set<nat> {
    set x | x in par && Under(par, n, x)
  }

  ghost function Kids(par: Parents, n: nat): set<nat> {
    set x | x in par && par[x] == n
  }

  /** The seeds together with all their ancestors. */
  ghost function UpClosure(par: Parents, seeds: set<nat>): set<nat> {
    set y | y in par && exists s :: s in seeds && Under(par, y, s)
  }

  ghost predicate UpClosed(par: Parents, s: set<nat>) {
    forall x {:trigger ClosedAt(par, s, x)} :: x in s && x in par ==> ClosedAt(par, s, x)
  }

  ghost predicate ClosedAt(par: Parents, s: set<nat>, x: nat)
    requires x in par
  {
    par[x] in par ==> par[x] in s
  }

  lemma {:induction false} UnderRoot(par: Parents, x: nat)
    requires WellFormed(par) && x in par
    ensures Under(par, 1, x)
    decreases x
  {
    assert Hangs(par, x);
    if x != 1 {
      UnderRoot(par, par[x]);
    }
  }

  lemma {:induction false} UnderOrder(par: Parents, n: nat, x: nat)
    requires Under(par, n, x)
    ensures n <= x && n in par
    decreases x
  {
    if n != x {
      UnderOrder(par, n, par[x]);
    }
  }

  lemma {:induction false} UnderTrans(par: Parents, a: nat, b: nat, c: nat)
    requires Under(par, a, b) && Under(par, b, c)
    ensures Under(par, a, c)
    decreases c
  {
    if b != c {
      UnderTrans(par, a, b, par[c]);
    }
  }

  /** Two ancestors of one node are comparable. */
  lemma {:induction false} UnderLinear(par: Parents, a: nat, b: nat, x: nat)
    requires Under(par, a, x) && Under(par, b, x)
    ensures Under(par, a, b) || Under(par, b, a)
    decreases x
  {
    if a != x && b != x {
      UnderLinear(par, a, b, par[x]);
    }
  }

  /** The child of `n` through which the path from `n` down to `x` goes. */
  lemma {:induction false} Branch(par: Parents, n: nat, x: nat) returns (c: nat)
    requires Under(par, n, x) && n != x
    ensures c in Kids(par, n) && n < c && Under(par, c, x)
    decreases x
  {
    if par[x] == n {
      c := x;
    } else {
      c := Branch(par, n, par[x]);
    }
  }

  /** Subtrees of two different children of a node have nothing in common. */
  lemma KidsApart(par: Parents, n: nat, a: nat, b: nat)
    requires WellFormed(par)
    requires a in Kids(par, n) && b in Kids(par, n) && a != b
    ensures Subtree(par, a) !! Subtree(par, b)
  {
    forall x | Under(par, a, x) && Under(par, b, x)
      ensures false
    {
      UnderLinear(par, a, b, x);
      var u, v := if Under(par, a, b) then a else b, if Under(par, a, b) then b else a;
      assert Hangs(par, u) && Hangs(par, v);
      UnderOrder(par, u, par[v]);
    }
  }

  lemma SubtreeOfKid(par: Parents, n: nat, c: nat)
    requires WellFormed(par) && n in par && c in Kids(par, n)
    ensures Subtree(par, c) < Subtree(par, n)
  {
    assert Hangs(par, c);
    forall x | Under(par, c, x)
      ensures Under(par, n, x) && x != n
    {
      assert Under(par, n, c);
      UnderTrans(par, n, c, x);
      UnderOrder(par, c, x);
    }
    assert n in Subtree(par, n) && n !in Subtree(par, c);
  }

  /** The union of the subtrees of some nodes. */
  ghost function Below(par: Parents, roots: set<nat>): set<nat> {
    set x | x in par && exists c :: c in roots && Under(par, c, x)
  }

  /** Column of subtree sums. */
  ghost function SubtreeSums(par: Parents, d: map<nat, int>): map<nat, int> {
    map n | n in par :: Sum(Subtree(par, n), d)
  }

  lemma {:induction false} BelowKids(par: Parents, n: nat, kids: set<nat>, d: map<nat, int>)
    requires WellFormed(par) && kids <= Kids(par, n)
    ensures Sum(Below(par, kids), d) == Sum(kids, SubtreeSums(par, d))
    decreases |kids|
  {
    if kids == {} {
      assert Below(par, kids) == {};
    } else {
      var c :| c in kids;
      var rest := kids - {c};
      BelowKids(par, n, rest, d);
      assert Below(par, kids) == Subtree(par, c) + Below(par, rest);
      forall k | k in rest
        ensures Subtree(par, c) !! Subtree(par, k)
      {
        KidsApart(par, n, c, k);
      }
      forall x | x in Below(par, rest)
        ensures x !in Subtree(par, c)
      {
        var k :| k in rest && Under(par, k, x);
        assert x in Subtree(par, k);
      }
      SumUnion(Subtree(par, c), Below(par, rest), d);
      SumPull(kids, SubtreeSums(par, d), c);
    }
  }

  /** A subtree sum is the node's own entry plus the subtree sums of its children. */
  lemma SubtreeSplit(par: Parents, d: map<nat, int>, n: nat)
    requires WellFormed(par) && n in par
    ensures Sum(Subtree(par, n), d) == Get(d, n) + Sum(Kids(par, n), SubtreeSums(par, d))
  {
    var below := Below(par, Kids(par, n));
    forall x | Under(par, n, x) && x != n
      ensures x in below
    {
      var c := Branch(par, n, x);
    }
    forall x | x in below
      ensures Under(par, n, x) && x != n
    {
      var c :| c in Kids(par, n) && Under(par, c, x);
      assert Hangs(par, c);
      SubtreeOfKid(par, n, c);
      assert x in Subtree(par, c);
      UnderOrder(par, c, x);
    }
    assert Subtree(par, n) - {n} == below;
    SumPull(Subtree(par, n), d, n);
    BelowKids(par, n, Kids(par, n), d);
  }

  /** A set closed under parents that misses a node misses its whole subtree. */
  lemma {:induction false} UpClosedMisses(par: Parents, s: set<nat>, n: nat, x: nat)
    requires WellFormed(par) && UpClosed(par, s)
    requires Under(par, n, x) && x in s
    ensures n in s
    decreases x
  {
    assert Hangs(par, x) && ClosedAt(par, s, x);
    if n != x {
      UnderOrder(par, n, par[x]);
      UpClosedMisses(par, s, n, par[x]);
    }
  }

  /** Growing a tree leaves every ancestor relation of the old nodes as it was. */
  lemma {:induction false} UnderGrow(par: Parents, big: Parents, n: nat, x: nat)
    requires WellFormed(par) && 0 !in big && x in par
    requires Extends(par, big)
    ensures Under(big, n, x) == Under(par, n, x)
    decreases x
  {
    assert Hangs(par, x);
    if x != 1 {
      UnderGrow(par, big, n, par[x]);
    }
  }

  /** One step up the ancestor chain. */
  lemma UnderParent(par: Parents, x: nat, id: nat)
    requires WellFormed(par) && id in par
    ensures Under(par, x, id) <==> x == id || Under(par, x, par[id])
    ensures !Under(par, id, par[id])
    ensures par[id] in par ==> Under(par, par[id], id)
    ensures par[id] < id
  {
    assert Hangs(par, id);
    if Under(par, id, par[id]) {
      UnderOrder(par, id, par[id]);
    }
  }

  // ------------------------------------------------- walks that may stop early

  /** Walking up from `x` comes to `n` without meeting a node of `stop`. */
  ghost predicate Reach(par: Parents, stop: set<nat>, n: nat, x: nat)
    decreases x
  {
    x in par && x !in stop && (n == x || (par[x] < x && Reach(par, stop, n, par[x])))
  }

  /** Everything on the walks from some seeds. */
  ghost function Walked(par: Parents, stop: set<nat>, seeds: set<nat>): set<nat> {
    set y | y in par && exists s :: s in seeds && Reach(par, stop, y, s)
  }

  lemma {:induction false} ReachUnder(par: Parents, stop: set<nat>, n: nat, x: nat)
    requires Reach(par, stop, n, x)
    ensures Under(par, n, x) && n in par && n !in stop
    decreases x
  {
    if n != x {
      ReachUnder(par, stop, n, par[x]);
    }
  }

  lemma {:induction false} ReachTrans(par: Parents, stop: set<nat>, a: nat, b: nat, c: nat)
    requires Reach(par, stop, a, b) && Reach(par, stop, b, c)
    ensures Reach(par, stop, a, c)
    decreases c
  {
    if b != c {
      ReachTrans(par, stop, a, b, par[c]);
    }
  }

  /** A walk past more obstacles is a walk past fewer. */
  lemma {:induction false} ReachFewer(par: Parents, stop: set<nat>, more: set<nat>, n: nat, x: nat)
    requires Reach(par, more, n, x) && stop <= more
    ensures Reach(par, stop, n, x)
    decreases x
  {
    if n != x {
      ReachFewer(par, stop, more, n, par[x]);
    }
  }

  /** A walk that more obstacles make impossible meets one of them. */
  lemma {:induction false} ReachMeets(par: Parents, stop: set<nat>, more: set<nat>, n: nat, x: nat) returns (y: nat)
    requires Reach(par, stop, n, x) && !Reach(par, more, n, x)
    ensures y in more && y in par && y !in stop && Reach(par, stop, n, y) && Reach(par, stop, y, x)
    decreases x
  {
    if x in more {
      y := x;
    } else {
      y := ReachMeets(par, stop, more, n, par[x]);
    }
  }

  lemma {:induction false} ReachGrow(par: Parents, big: Parents, stop: set<nat>, n: nat, x: nat)
    requires WellFormed(par) && 0 !in big && x in par
    requires Extends(par, big)
    ensures Reach(big, stop, n, x) == Reach(par, stop, n, x)
    decreases x
  {
    assert Hangs(par, x);
    if x != 1 {
      ReachGrow(par, big, stop, n, par[x]);
    }
  }

  /** None of the proper ancestors of `x` is in `cut`. */
  ghost predicate Visible(par: Parents, cut: set<nat>, x: nat)
    decreases x
  {
    x in par && (x == 1 || (par[x] < x && par[x] !in cut && Visible(par, cut, par[x])))
  }

  ghost function Visibles(par: Parents, cut: set<nat>): set<nat> {
    set x | x in par && Visible(par, cut, x)
  }

  lemma {:induction false} VisibleIff(par: Parents, cut: set<nat>, x: nat)
    requires WellFormed(par) && x in par
    ensures Visible(par, cut, x) <==> forall y :: y in cut && Under(par, y, x) ==> y == x
    decreases x
  {
    assert Hangs(par, x);
    if x == 1 {
      forall y | Under(par, y, 1)
        ensures y == 1
      {
        UnderOrder(par, y, 1);
        assert Hangs(par, y);
      }
    } else {
      var up := par[x];
      VisibleIff(par, cut, up);
      UnderParent(par, up, x);
      forall y
        ensures Under(par, y, x) <==> y == x || Under(par, y, up)
        ensures !Under(par, x, up)
      {
        UnderParent(par, y, x);
      }
      assert Under(par, up, up);
    }
  }

  lemma {:induction false} VisibleGrow(par: Parents, big: Parents, cut: set<nat>, wide: set<nat>, x: nat)
    requires WellFormed(par) && 0 !in big && Extends(par, big) && x in par
    requires forall y :: y in par ==> (y in cut <==> y in wide)
    ensures Visible(big, wide, x) == Visible(par, cut, x)
    decreases x
  {
    assert Hangs(par, x);
    if x != 1 {
      VisibleGrow(par, big, cut, wide, par[x]);
    }
  }
}
