/** The cumulative tree and the time slices say the same. */
module Representations {
  import opened Wire
  import opened Sums
  import opened Forest
  import opened StoreModel
  import opened TimeSlices
  import opened StoreRuns

  /** What a store marks and clears: the nodes with a record, the running node if
      it was known, and their ancestors up to the first that was still dirty, as
      far as no attribute node is above them. */
  ghost function Marks(cfg: Config, tree: Tree, run: NodeId, recs: seq<Record>): set<NodeId>
    requires Good(cfg, tree) && Fits(cfg, tree, recs)
  {
    var t := StoreTree(cfg, tree, run, recs);
    Walked(Par(t), Dirty(tree), Seeds(tree, run, recs)) * Seen(cfg, t)
  }

  /** A slice has exactly these nodes. */
  lemma SliceIsMarked(cfg: Config, tree: Tree, run: NodeId, recs: seq<Record>)
    requires Good(cfg, tree) && Fits(cfg, tree, recs)
    ensures StoreSlice(cfg, tree, run, recs).Keys == Marks(cfg, tree, run, recs)
  {
    var g := Staged(cfg, tree, run, recs);
    StagedValid(cfg, tree, run, recs);
    SettleValid(cfg, g, Collected(cfg, g));
    assert StoreSlice(cfg, tree, run, recs).Keys == Collected(cfg, g);
  }

  /** So it is closed under parents, has the root if it has anything at all, and
      has every node that is seen and reported. */
  lemma SliceClosed(cfg: Config, tree: Tree, run: NodeId, recs: seq<Record>)
    requires Good(cfg, tree) && Fits(cfg, tree, recs)
    ensures var slice, t := StoreSlice(cfg, tree, run, recs), StoreTree(cfg, tree, run, recs);
      && ClosedIn(Par(t), slice.Keys)
      && slice.Keys <= Seen(cfg, t) <= t.Keys
      && Seeds(tree, run, recs) * Seen(cfg, t) <= slice.Keys
      && (Seeds(tree, run, recs) == {} ==> slice.Keys == {})
  {
    var t := StoreTree(cfg, tree, run, recs);
    var stop, seeds, seen := Dirty(tree), Seeds(tree, run, recs), Seen(cfg, t);
    StoreExtends(cfg, tree, run, recs);
    SliceIsMarked(cfg, tree, run, recs);
    forall x | x in stop
      ensures x !in seen
    {
      assert x !in Collected(cfg, tree);
    }
    MarkedClosed(Par(t), Attrs(cfg, t), stop, seeds);
    WalkedFree(Par(t), stop, seeds);
    RootOfClosed(Par(t), StoreSlice(cfg, tree, run, recs).Keys);
  }

  /** Nodes of one tree, closed under parents. */
  ghost predicate ClosedIn(par: Parents, keys: set<NodeId>) {
    keys <= par.Keys && UpClosed(par, keys) && (keys != {} ==> ROOT in keys)
  }

  lemma RootOfClosed(par: Parents, s: set<NodeId>)
    requires WellFormed(par) && UpClosed(par, s) && s <= par.Keys
    ensures s != {} ==> ROOT in s
  {
    if s != {} {
      var x :| x in s;
      UnderRoot(par, x);
      UpClosedMisses(par, s, ROOT, x);
    }
  }

  /** The values of a cumulative node, in the shape of a slice node. */
  ghost function ValuesOf(cfg: Config, tree: Tree, x: NodeId): SliceNode {
    if x in tree then SliceNode(tree[x].all, tree[x].cld, tree[x].callCount) else ZeroNode(cfg)
  }

  /** Every cumulative node has the values of the merged slices, zeros if it is
      in none of them; and static columns have no children sums. */
  ghost predicate Agrees(cfg: Config, tree: Tree, merged: SliceTree, x: NodeId) {
    && ValuesOf(cfg, tree, x) == NodeOr(cfg, merged, x)
    && NodeWidths(cfg, ValuesOf(cfg, tree, x))
    && forall i :: 0 <= i < |cfg.meta| && cfg.meta[i].isStatic ==> ValuesOf(cfg, tree, x).cld[i] == 0
  }

  lemma SettledAccumulates(cfg: Config, g: Tree, c: set<NodeId>, x: NodeId, before: SliceNode)
    requires x in g && ValidNode(cfg, g, x) && x in c && NodeWidths(cfg, before)
    requires before == SliceNode(g[x].all, g[x].cld, g[x].callCount)
    requires forall i :: 0 <= i < |cfg.meta| && cfg.meta[i].isStatic ==> before.cld[i] == 0
    ensures var n := SettledNode(cfg, g, c, x);
      Accumulate(cfg, before, SettledSlice(cfg, g, c, x)) == SliceNode(n.all, n.cld, n.callCount)
  {
    var n, s := SettledNode(cfg, g, c, x), SettledSlice(cfg, g, c, x);
    assert n.all == Combine(cfg, before.all, s.all);
    assert n.cld == Combine(cfg, before.cld, s.cld);
  }

  lemma StoreAgrees(cfg: Config, tree: Tree, run: NodeId, recs: seq<Record>, merged: SliceTree, x: NodeId)
    requires Good(cfg, tree) && Fits(cfg, tree, recs) && !cfg.single
    requires SliceWidths(cfg, merged) && merged.Keys <= tree.Keys && Agrees(cfg, tree, merged, x)
    requires SliceWidths(cfg, StoreSlice(cfg, tree, run, recs))
    ensures Agrees(cfg, StoreTree(cfg, tree, run, recs), Onto(cfg, merged, StoreSlice(cfg, tree, run, recs)), x)
  {
    var g := Staged(cfg, tree, run, recs);
    StagedValid(cfg, tree, run, recs);
    StagedValues(cfg, tree, run, recs, x);
    if x in g {
      SettleAgrees(cfg, g, Collected(cfg, g), merged, x, ValuesOf(cfg, tree, x));
    }
  }

  lemma StagedValues(cfg: Config, tree: Tree, run: NodeId, recs: seq<Record>, x: NodeId)
    requires Good(cfg, tree) && Fits(cfg, tree, recs) && !cfg.single
    ensures ValuesOf(cfg, Staged(cfg, tree, run, recs), x) == ValuesOf(cfg, tree, x)
  {
    StagedNode(cfg, tree, run, recs, x);
    AddAllValues(cfg, tree, recs);
  }

  lemma SettleAgrees(cfg: Config, g: Tree, c: set<NodeId>, merged: SliceTree, x: NodeId, before: SliceNode)
    requires ValidTree(cfg, g) && x in g && SliceWidths(cfg, merged)
    requires before == ValuesOf(cfg, g, x) && Agrees(cfg, g, merged, x)
    requires SliceWidths(cfg, SettledSlices(cfg, g, c, g.Keys))
    ensures Agrees(cfg, Settle(cfg, g, c), Onto(cfg, merged, SettledSlices(cfg, g, c, g.Keys)), x)
  {
    assert ValidNode(cfg, g, x);
    assert Settle(cfg, g, c)[x] == SettledNode(cfg, g, c, x);
    if x in c {
      SettledAccumulates(cfg, g, c, x, before);
    }
  }

  /** What one action does to the tree and to the merge of all slices. */
  lemma ActEffect(cfg: Config, s: State, a: Action, r: State)
    requires Sound(cfg, s) && Enabled(cfg, s, a) && r == Act(cfg, s, a)
    ensures !a.Put? ==> r.tree == s.tree
    ensures a.Look? ==> Merge(cfg, r.slices) == Merge(cfg, s.slices)
    ensures a.Put? ==>
      && SliceWidths(cfg, StoreSlice(cfg, s.tree, a.ni.running, a.recs))
      && r.tree == StoreTree(cfg, s.tree, a.ni.running, a.recs)
      && Merge(cfg, r.slices) == Onto(cfg, Merge(cfg, s.slices), StoreSlice(cfg, s.tree, a.ni.running, a.recs))
  {
    match a
    case Put(t, recs, ni) => PutEffect(cfg, s, t, recs, ni, r);
    case Look(t) => LookEffect(cfg, s, t);
    case Remove =>
  }

  lemma LookEffect(cfg: Config, s: State, t: int)
    requires Sound(cfg, s)
    ensures var r := Act(cfg, s, Look(t)); r.tree == s.tree && Merge(cfg, r.slices) == Merge(cfg, s.slices)
  {
    var start := StartAt(s, t);
    MergePadded(cfg, s.slices, if t < start then 0 else t - start + 1);
  }

  lemma PutEffect(cfg: Config, s: State, t: int, recs: seq<Record>, ni: NowInfo, r: State)
    requires Sound(cfg, s) && Enabled(cfg, s, Put(t, recs, ni)) && r == PutState(cfg, s, t, recs, ni)
    ensures var slice := StoreSlice(cfg, s.tree, ni.running, recs);
      && SliceWidths(cfg, slice)
      && r.tree == StoreTree(cfg, s.tree, ni.running, recs)
      && Merge(cfg, r.slices) == Onto(cfg, Merge(cfg, s.slices), slice)
  {
    var k, slice := t - StartAt(s, t), SliceOf(cfg, s.tree, recs, ni);
    PutIs(cfg, s, t, recs, ni, k, slice);
    MergePut(cfg, s.slices, k, slice);
  }

  /** Merged slices have known nodes only. */
  lemma {:induction false} MergedKnown(cfg: Config, run: seq<Action>)
    requires Runnable(cfg, run)
    ensures Merge(cfg, After(cfg, run).slices).Keys <= After(cfg, run).tree.Keys
  {
    if run != [] {
      var init, a := run[..|run| - 1], run[|run| - 1];
      var s := After(cfg, init);
      MergedKnown(cfg, init);
      ActEffect(cfg, s, a, After(cfg, run));
      if a.Put? {
        SliceClosed(cfg, s.tree, a.ni.running, a.recs);
        StoreExtends(cfg, s.tree, a.ni.running, a.recs);
      }
    }
  }

  /** The two representations agree after every run of stores and look-ups, for
      every node id there is. */
  lemma {:induction false} RepresentationsAgree(cfg: Config, run: seq<Action>, x: NodeId)
    requires Runnable(cfg, run) && !cfg.single
    ensures Agrees(cfg, After(cfg, run).tree, Merge(cfg, After(cfg, run).slices), x)
  {
    if run != [] {
      var init, a := run[..|run| - 1], run[|run| - 1];
      var s := After(cfg, init);
      RepresentationsAgree(cfg, init, x);
      MergedKnown(cfg, init);
      ActEffect(cfg, s, a, After(cfg, run));
      if a.Put? {
        StoreAgrees(cfg, s.tree, a.ni.running, a.recs, Merge(cfg, s.slices), x);
      }
    }
  }

  // ------------------------------------------------------ which nodes appear

  /** What the stores since the last removal of slices have marked and cleared. */
  ghost function Kept(cfg: Config, run: seq<Action>): set<NodeId>
    requires Runnable(cfg, run)
    decreases |run|
  {
    if run == [] then {}
    else
      var init, a := run[..|run| - 1], run[|run| - 1];
      match a
      case Put(_, recs, ni) => Kept(cfg, init) + Marks(cfg, After(cfg, init).tree, ni.running, recs)
      case Look(_) => Kept(cfg, init)
      case Remove => {}
  }

  /** These are the nodes that merging all slices finds, in both modes. */
  lemma {:induction false} MergedNodes(cfg: Config, run: seq<Action>)
    requires Runnable(cfg, run)
    ensures Merge(cfg, After(cfg, run).slices).Keys == Kept(cfg, run)
  {
    if run != [] {
      var init, a := run[..|run| - 1], run[|run| - 1];
      var s := After(cfg, init);
      MergedNodes(cfg, init);
      ActEffect(cfg, s, a, After(cfg, run));
      if a.Put? {
        SliceIsMarked(cfg, s.tree, a.ni.running, a.recs);
      }
    }
  }

  /** Some store found something to mark. */
  ghost predicate MarkedSome(cfg: Config, run: seq<Action>)
    requires Runnable(cfg, run)
    decreases |run|
  {
    run != [] &&
    var init, a := run[..|run| - 1], run[|run| - 1];
    MarkedSome(cfg, init) || (a.Put? && (a.recs != [] || a.ni.running in After(cfg, init).tree))
  }

  /** That depends on what was delivered alone. */
  lemma {:induction false} SameDeliveriesSameMarked(cfg: Config, a: seq<Action>, b: seq<Action>)
    requires Runnable(cfg, a) && Runnable(cfg, b) && Deliveries(a) == Deliveries(b)
    ensures MarkedSome(cfg, a) == MarkedSome(cfg, b)
    decreases |a| + |b|
  {
    if a != [] && !a[|a| - 1].Put? {
      SameDeliveriesSameMarked(cfg, a[..|a| - 1], b);
    } else if b != [] && !b[|b| - 1].Put? {
      SameDeliveriesSameMarked(cfg, a, b[..|b| - 1]);
    } else if a != [] && b != [] {
      LastDelivery(a, b);
      SameDeliveriesSameMarked(cfg, a[..|a| - 1], b[..|b| - 1]);
      SameDeliveriesSameTree(cfg, a[..|a| - 1], b[..|b| - 1]);
    }
  }

  /** Outside single-tree mode these are all nodes with no attribute node above
      them, as soon as some buffer was not empty or came with a known running
      node, and none before, when there is only the root. */
  lemma {:induction false} KeptIsSeen(cfg: Config, run: seq<Action>)
    requires Runnable(cfg, run) && !cfg.single
    ensures var t := After(cfg, run).tree;
      if MarkedSome(cfg, run) then Kept(cfg, run) == Seen(cfg, t) else Kept(cfg, run) == {} && t.Keys == {ROOT}
  {
    if run != [] {
      var init, a := run[..|run| - 1], run[|run| - 1];
      var u := After(cfg, init).tree;
      KeptIsSeen(cfg, init);
      if a.Put? {
        LastPut(cfg, run, init, a);
        SliceIsMarked(cfg, u, a.ni.running, a.recs);
        KeptStep(cfg, u, a.ni.running, a.recs, Kept(cfg, init));
      }
    }
  }

  /** `kept` is everything seen, or nothing while there is only the root. */
  ghost predicate KeepsSeen(cfg: Config, tree: Tree, kept: set<NodeId>) {
    kept == Seen(cfg, tree) || (kept == {} && tree.Keys == {ROOT})
  }

  lemma KeptStep(cfg: Config, u: Tree, run: NodeId, recs: seq<Record>, kept: set<NodeId>)
    requires Good(cfg, u) && Fits(cfg, u, recs) && KeepsSeen(cfg, u, kept)
    ensures var t, slice := StoreTree(cfg, u, run, recs), StoreSlice(cfg, u, run, recs);
      if kept != {} || recs != [] || run in u then kept + slice.Keys == Seen(cfg, t)
      else slice.Keys == {} && t.Keys == {ROOT}
  {
    var t, slice := StoreTree(cfg, u, run, recs), StoreSlice(cfg, u, run, recs);
    SliceClosed(cfg, u, run, recs);
    StoreExtends(cfg, u, run, recs);
    RootSeen(cfg, u);
    if kept != {} || recs != [] || run in u {
      NewAreSeeds(cfg, u, t, run, recs);
      if kept == {} {
        MarksRoot(cfg, u, t, run, recs, slice.Keys);
      }
      JoinSeen(Seen(cfg, u), Seen(cfg, t), kept, slice.Keys);
    } else {
      assert Ids(recs) == {};
    }
  }

  lemma JoinSeen(before: set<NodeId>, seen: set<NodeId>, kept: set<NodeId>, slice: set<NodeId>)
    requires before <= seen && slice <= seen && kept <= before
    requires seen - before <= slice && before <= kept + slice
    ensures kept + slice == seen
  {
  }

  lemma RootSeen(cfg: Config, tree: Tree)
    requires ValidTree(cfg, tree)
    ensures ROOT in Seen(cfg, tree) && Seen(cfg, tree) <= tree.Keys
  {
  }

  /** What is newly seen has a record. */
  lemma NewAreSeeds(cfg: Config, u: Tree, t: Tree, run: NodeId, recs: seq<Record>)
    requires t.Keys == u.Keys + Ids(recs) && SeenStays(cfg, u, t)
    ensures Seen(cfg, u) <= Seen(cfg, t)
    ensures Seen(cfg, t) - Seen(cfg, u) <= Seeds(u, run, recs) * Seen(cfg, t)
  {
  }

  /** The first store that marks anything marks the root. */
  lemma MarksRoot(cfg: Config, u: Tree, t: Tree, run: NodeId, recs: seq<Record>, marks: set<NodeId>)
    requires ValidTree(cfg, t) && u.Keys == {ROOT} && t.Keys == u.Keys + Ids(recs)
    requires recs != [] || run in u
    requires ClosedIn(Par(t), marks) && Seeds(u, run, recs) * Seen(cfg, t) <= marks
    ensures ROOT in marks
  {
    RootSeen(cfg, t);
    if recs != [] {
      var x := recs[|recs| - 1].id;
      assert x in Ids(recs);
      UnderRoot(Par(t), x);
      if x != ROOT {
        var c := Branch(Par(t), ROOT, x);
        assert c in Seen(cfg, t) && c in Seeds(u, run, recs);
      }
    }
  }

  // ------------------------------------------------------------ running flags

  lemma FlagsAfterStore(cfg: Config, tree: Tree, run: NodeId, recs: seq<Record>, x: NodeId)
    requires Good(cfg, tree) && Fits(cfg, tree, recs) && x in StoreTree(cfg, tree, run, recs)
    ensures var t := StoreTree(cfg, tree, run, recs);
      t[x].running <==> run in tree && Under(Par(t), x, run)
  {
    var g, t := Staged(cfg, tree, run, recs), StoreTree(cfg, tree, run, recs);
    StagedValid(cfg, tree, run, recs);
    StoreValid(cfg, tree, run, recs);
    assert t[x].running == g[x].running;
    assert g[x].running <==> x in RunningSet(tree, AddAll(cfg, tree, recs), run);
  }

  /** The running flags mark the running node and its ancestors, except when the
      node is made by the very buffer that comes with it: flags are set before
      new nodes are, so then none is set. */
  lemma FlagsAreAncestors(cfg: Config, tree: Tree, run: NodeId, recs: seq<Record>)
    requires Good(cfg, tree) && Fits(cfg, tree, recs)
    ensures var t := StoreTree(cfg, tree, run, recs);
      (forall x :: x in t ==> (t[x].running <==> Under(Par(t), x, run))) <==> (run in Ids(recs) ==> run in tree)
  {
    var t := StoreTree(cfg, tree, run, recs);
    StoreValid(cfg, tree, run, recs);
    forall x | x in t
      ensures t[x].running <==> run in tree && Under(Par(t), x, run)
    {
      FlagsAfterStore(cfg, tree, run, recs, x);
    }
    if run in Ids(recs) && run !in tree {
      assert run in t && !t[run].running && Under(Par(t), run, run);
    } else if run !in t {
      forall x
        ensures !Under(Par(t), x, run)
      {
      }
    }
  }

  // ---------------------------------------------------------------- windows

  /** The first `n` slices, or all if there are fewer. */
  ghost function Cut(slices: seq<Slice>, n: nat): seq<Slice> {
    if n <= |slices| then slices[..n] else slices
  }

  lemma CutWidths(cfg: Config, slices: seq<Slice>, n: nat)
    requires AllWidths(cfg, slices)
    ensures AllWidths(cfg, Cut(slices, n))
  {
  }

  /** Slices made on demand change no merge from the beginning. */
  lemma CutPadded(cfg: Config, slices: seq<Slice>, k: nat, n: nat)
    requires AllWidths(cfg, slices)
    ensures AllWidths(cfg, Padded(slices, k)) && AllWidths(cfg, Cut(slices, n))
    ensures AllWidths(cfg, Cut(Padded(slices, k), n))
    ensures Merge(cfg, Cut(Padded(slices, k), n)) == Merge(cfg, Cut(slices, n))
  {
    MergePadded(cfg, slices, k);
    var p := Cut(Padded(slices, k), n);
    if n > |slices| {
      assert p[..|slices|] == slices;
      MergeTrim(cfg, p, |slices|);
    } else {
      assert p == Cut(slices, n);
    }
  }

  /** Neither does a slice put behind the cut; one before the cut counts. */
  lemma CutPut(cfg: Config, slices: seq<Slice>, k: nat, slice: Slice, n: nat)
    requires AllWidths(cfg, slices) && SliceWidths(cfg, slice.tree) && EmptyFrom(slices, k)
    ensures AllWidths(cfg, PutSlice(slices, k, slice)) && AllWidths(cfg, Cut(slices, n))
    ensures AllWidths(cfg, Cut(PutSlice(slices, k, slice), n))
    ensures Merge(cfg, Cut(PutSlice(slices, k, slice), n))
         == if k < n then Merge(cfg, PutSlice(slices, k, slice)) else Merge(cfg, Cut(slices, n))
  {
    var q := PutSlice(slices, k, slice);
    PutParts(cfg, slices, k, slice);
    if k < n {
      if n <= |q| {
        MergeTrim(cfg, q, n);
      }
    } else {
      CutPadded(cfg, slices, k + 1, n);
      assert Cut(q, n) == Cut(Padded(slices, k + 1), n);
    }
  }

  /** The cumulative tree as the last store with a time up to `t` left it. */
  ghost function TreeAt(cfg: Config, run: seq<Action>, t: int): (r: Tree)
    requires Runnable(cfg, run)
    ensures Good(cfg, r)
    decreases |run|
  {
    if run == [] then FirstTree(cfg)
    else if run[|run| - 1].Put? && run[|run| - 1].time <= t then After(cfg, run).tree
    else TreeAt(cfg, run[..|run| - 1], t)
  }

  /** The slices up to time `t` hold what the tree held then: its values, and the
      nodes it had, as far as they are seen. */
  ghost predicate HeldAt(cfg: Config, tree: Tree, slices: seq<Slice>, n: nat)
    requires AllWidths(cfg, slices)
  {
    CutWidths(cfg, slices, n);
    var m := Merge(cfg, Cut(slices, n));
    && (forall x {:trigger Agrees(cfg, tree, m, x)} :: Agrees(cfg, tree, m, x))
    && KeepsSeen(cfg, tree, m.Keys)
  }

  /** Only the merge of the slices before the cut matters. */
  lemma HeldSame(cfg: Config, tree: Tree, a: seq<Slice>, b: seq<Slice>, n: nat)
    requires AllWidths(cfg, a) && AllWidths(cfg, b) && HeldAt(cfg, tree, a, n)
    requires AllWidths(cfg, Cut(a, n)) && AllWidths(cfg, Cut(b, n))
    requires Merge(cfg, Cut(b, n)) == Merge(cfg, Cut(a, n))
    ensures HeldAt(cfg, tree, b, n)
  {
  }

  lemma HeldAll(cfg: Config, run: seq<Action>, slices: seq<Slice>, n: nat)
    requires Runnable(cfg, run) && !cfg.single && slices == After(cfg, run).slices
    requires AllWidths(cfg, Cut(slices, n)) && Merge(cfg, Cut(slices, n)) == Merge(cfg, slices)
    ensures HeldAt(cfg, After(cfg, run).tree, slices, n)
  {
    forall x
      ensures Agrees(cfg, After(cfg, run).tree, Merge(cfg, slices), x)
    {
      RepresentationsAgree(cfg, run, x);
    }
    MergedNodes(cfg, run);
    KeptIsSeen(cfg, run);
  }

  lemma {:induction false} SlicesHold(cfg: Config, run: seq<Action>, t: int, start: int)
    requires Runnable(cfg, run) && !cfg.single
    requires After(cfg, run).slices != [] ==> start == After(cfg, run).start
    ensures HeldAt(cfg, TreeAt(cfg, run, t), After(cfg, run).slices, Upto(start, t + 1))
  {
    var s, n := After(cfg, run), Upto(start, t + 1);
    if run == [] {
      assert Cut(s.slices, n) == [];
      FirstAgrees(cfg);
    } else {
      var init, a := run[..|run| - 1], run[|run| - 1];
      var u := After(cfg, init);
      SlicesHold(cfg, init, t, start);
      if a.Look? {
        var k := Upto(StartAt(u, a.time), a.time + 1);
        assert s.slices == Padded(u.slices, k);
        CutPadded(cfg, u.slices, k, n);
        HeldSame(cfg, TreeAt(cfg, init, t), u.slices, s.slices, n);
      } else {
        HoldsPut(cfg, run, init, a, u, s, t, start);
      }
    }
  }

  lemma FirstAgrees(cfg: Config)
    requires !cfg.single
    ensures forall x {:trigger Agrees(cfg, FirstTree(cfg), map[], x)} :: Agrees(cfg, FirstTree(cfg), map[], x)
  {
  }

  lemma HoldsPut(
    cfg: Config, run: seq<Action>, init: seq<Action>, a: Action, u: State, s: State, t: int, start: int)
    requires Runnable(cfg, run) && !cfg.single
    requires EndsWith(cfg, run, init, a) && u == After(cfg, init) && s == After(cfg, run) && start == s.start
    requires HeldAt(cfg, TreeAt(cfg, init, t), u.slices, Upto(start, t + 1))
    ensures HeldAt(cfg, TreeAt(cfg, run, t), s.slices, Upto(start, t + 1))
  {
    var k, n := a.time - StartAt(u, a.time), Upto(start, t + 1);
    var slice := SliceOf(cfg, u.tree, a.recs, a.ni);
    assert s == PutState(cfg, u, a.time, a.recs, a.ni);
    PutIs(cfg, u, a.time, a.recs, a.ni, k, slice);
    CutPut(cfg, u.slices, k, slice, n);
    if a.time <= t {
      HeldAll(cfg, run, s.slices, n);
    } else {
      HeldSame(cfg, TreeAt(cfg, init, t), u.slices, s.slices, n);
    }
  }

  /** The slice for `time` has been filled, and is `slice`. */
  ghost predicate SliceAt(s: State, time: int, slice: Slice) {
    && s.slices != [] && s.start <= time < s.start + s.filled && time - s.start < |s.slices|
    && s.slices[time - s.start] == slice
  }

  /** What a store makes of its slice: the nodes, the now values and the running
      node it was given. */
  ghost function SliceFrom(cfg: Config, tree: Tree, a: Action): Slice
    requires a.Put? && Storable(tree.Keys, a.recs)
  {
    Slice(StoreSlice(cfg, tree, a.ni.running, a.recs), a.ni.values, a.ni.running)
  }

  lemma LaterKeeps(slices: seq<Slice>, k: nat, slice: Slice, n: nat, j: nat)
    requires j < k && j < |slices|
    ensures j < |PutSlice(slices, k, slice)| && PutSlice(slices, k, slice)[j] == slices[j]
    ensures j < |Padded(slices, n)| && Padded(slices, n)[j] == slices[j]
  {
  }

  /** Filled slices stay where they are, with what was stored. */
  lemma ActKeepsStored(cfg: Config, s: State, a: Action, t: State, time: int, stored: Slice)
    requires Sound(cfg, s) && Enabled(cfg, s, a) && t == Act(cfg, s, a) && !cfg.single && SliceAt(s, time, stored)
    ensures SliceAt(t, time, stored) && (a.Put? ==> time < a.time)
  {
    if a.Put? {
      var k, slice := a.time - s.start, SliceOf(cfg, s.tree, a.recs, a.ni);
      PutIs(cfg, s, a.time, a.recs, a.ni, k, slice);
      PutKeepsStored(s, k, slice, t, time, stored);
    } else {
      var n := Upto(StartAt(s, a.time), a.time + 1);
      LaterKeeps(s.slices, |s.slices|, s.slices[0], n, time - s.start);
      assert t == LookState(cfg, s, a.time);
    }
  }

  lemma PutKeepsStored(s: State, k: nat, slice: Slice, t: State, time: int, stored: Slice)
    requires SliceAt(s, time, stored) && k >= s.filled
    requires t.start == s.start && t.slices == PutSlice(s.slices, k, slice) && t.filled == k + 1
    ensures SliceAt(t, time, stored) && time < s.start + k
  {
    LaterKeeps(s.slices, k, slice, 0, time - s.start);
  }

  /** `part` is how a run began, up to a store. */
  ghost predicate UpToPut(run: seq<Action>, part: seq<Action>) {
    part <= run && part != [] && part[|part| - 1].Put?
  }

  lemma ShorterPart(run: seq<Action>, part: seq<Action>)
    requires part <= run && part != run
    ensures run != [] && part <= run[..|run| - 1]
  {
  }

  lemma {:induction false} PartRunnable(cfg: Config, run: seq<Action>, part: seq<Action>)
    requires Runnable(cfg, run) && part <= run
    ensures Runnable(cfg, part)
    decreases |run|
  {
    if part != run {
      ShorterPart(run, part);
      PartRunnable(cfg, run[..|run| - 1], part);
    }
  }

  /** What the store that ends `part` has put into a slice is there for good. */
  lemma {:induction false} SliceStays(cfg: Config, run: seq<Action>, part: seq<Action>)
    requires Runnable(cfg, run) && !cfg.single && UpToPut(run, part)
    ensures var init, a := part[..|part| - 1], part[|part| - 1];
      && Runnable(cfg, init) && Enabled(cfg, After(cfg, init), a)
      && SliceAt(After(cfg, run), a.time, SliceFrom(cfg, After(cfg, init).tree, a))
    decreases |run|
  {
    var init, a := part[..|part| - 1], part[|part| - 1];
    PartRunnable(cfg, run, part);
    if part == run {
      PutStored(cfg, After(cfg, init), a, After(cfg, run));
    } else {
      var before, last := run[..|run| - 1], run[|run| - 1];
      ShorterPart(run, part);
      SliceStays(cfg, before, part);
      StaysOneMore(cfg, run, before, last, a.time, SliceFrom(cfg, After(cfg, init).tree, a));
    }
  }

  lemma StaysOneMore(cfg: Config, run: seq<Action>, init: seq<Action>, a: Action, time: int, slice: Slice)
    requires Runnable(cfg, run) && !cfg.single && run != [] && init == run[..|run| - 1] && a == run[|run| - 1]
    requires SliceAt(After(cfg, init), time, slice)
    ensures SliceAt(After(cfg, run), time, slice) && (a.Put? ==> time < a.time)
  {
    ActKeepsStored(cfg, After(cfg, init), a, After(cfg, run), time, slice);
  }

  lemma PutStored(cfg: Config, s: State, a: Action, t: State)
    requires Sound(cfg, s) && a.Put? && Enabled(cfg, s, a) && t == Act(cfg, s, a)
    ensures SliceAt(t, a.time, SliceFrom(cfg, s.tree, a))
  {
    PutFilled(cfg, s, a.time, a.recs, a.ni);
    assert t == PutState(cfg, s, a.time, a.recs, a.ni);
  }

  /** The tree at the time of a store is the tree it left. */
  lemma {:induction false} TreeAtPut(cfg: Config, run: seq<Action>, part: seq<Action>)
    requires Runnable(cfg, run) && !cfg.single && UpToPut(run, part)
    ensures Runnable(cfg, part) && TreeAt(cfg, run, part[|part| - 1].time) == After(cfg, part).tree
    decreases |run|
  {
    var time := part[|part| - 1].time;
    PartRunnable(cfg, run, part);
    TreeAtInit(cfg, run, run[..|run| - 1], run[|run| - 1], time);
    if part != run {
      ShorterPart(run, part);
      TreeAtPut(cfg, run[..|run| - 1], part);
      LaterPut(cfg, run, part);
    }
  }

  lemma TreeAtInit(cfg: Config, run: seq<Action>, init: seq<Action>, a: Action, t: int)
    requires Runnable(cfg, run) && run != [] && init == run[..|run| - 1] && a == run[|run| - 1]
    ensures TreeAt(cfg, run, t) == if a.Put? && a.time <= t then After(cfg, run).tree else TreeAt(cfg, init, t)
  {
  }

  /** Later stores have later times. */
  lemma LaterPut(cfg: Config, run: seq<Action>, part: seq<Action>)
    requires Runnable(cfg, run) && !cfg.single && UpToPut(run, part) && part != run
    ensures run[|run| - 1].Put? ==> part[|part| - 1].time < run[|run| - 1].time
  {
    var before, last, a := run[..|run| - 1], run[|run| - 1], part[|part| - 1];
    ShorterPart(run, part);
    SliceStays(cfg, before, part);
    StaysOneMore(cfg, run, before, last, a.time, SliceFrom(cfg, After(cfg, part[..|part| - 1]).tree, a));
  }

  /** Trees only grow, and what is seen stays seen. */
  ghost predicate TreeGrows(cfg: Config, u: Tree, t: Tree) {
    Extends(Par(u), Par(t)) && u.Keys <= t.Keys && SeenStays(cfg, u, t)
  }

  lemma {:induction false} TreeAtKnown(cfg: Config, run: seq<Action>, t: int)
    requires Runnable(cfg, run)
    ensures TreeGrows(cfg, TreeAt(cfg, run, t), After(cfg, run).tree)
  {
    if run != [] {
      var init, a := run[..|run| - 1], run[|run| - 1];
      TreeAtKnown(cfg, init, t);
      StepGrows(cfg, run, init, a);
      TreeAtInit(cfg, run, init, a, t);
      if !(a.Put? && a.time <= t) {
        GrowsTrans(cfg, TreeAt(cfg, init, t), After(cfg, init).tree, After(cfg, run).tree);
      }
    }
  }

  lemma StepGrows(cfg: Config, run: seq<Action>, init: seq<Action>, a: Action)
    requires Runnable(cfg, run) && run != [] && init == run[..|run| - 1] && a == run[|run| - 1]
    ensures TreeGrows(cfg, After(cfg, init).tree, After(cfg, run).tree)
  {
    if a.Put? {
      LastPut(cfg, run, init, a);
      StoreExtends(cfg, After(cfg, init).tree, a.ni.running, a.recs);
    }
  }

  lemma GrowsTrans(cfg: Config, a: Tree, b: Tree, c: Tree)
    requires TreeGrows(cfg, a, b) && TreeGrows(cfg, b, c)
    ensures TreeGrows(cfg, a, c)
  {
  }

  lemma {:induction false} TreeAtGrows(cfg: Config, run: seq<Action>, t: int, u: int)
    requires Runnable(cfg, run) && t <= u
    ensures TreeGrows(cfg, TreeAt(cfg, run, t), TreeAt(cfg, run, u))
  {
    if run != [] {
      TreeAtGrows(cfg, run[..|run| - 1], t, u);
      TreeAtInit(cfg, run, run[..|run| - 1], run[|run| - 1], t);
      TreeAtInit(cfg, run, run[..|run| - 1], run[|run| - 1], u);
      TreeAtKnown(cfg, run, t);
    }
  }

  /** `m` is what `to` has more than `from`, in a column that is summed. */
  ghost predicate IsDifference(m: SliceTree, from: Tree, to: Tree, x: NodeId, i: nat) {
    && SliceAll(m, x, i) == AllAt(to, x, i) - AllAt(from, x, i)
    && SliceCld(m, x, i) == CldAt(to, x, i) - CldAt(from, x, i)
    && SliceCount(m, x) == CountAt(to, x) - CountAt(from, x)
  }

  /** Merging the slices for the times `from` to `to`, whether they lie before
      the first slice, in a gap, or beyond the last, gives the difference of the
      cumulative tree at `to` and just before `from`. */
  lemma WindowIsDifference(
    cfg: Config, run: seq<Action>, from: int, to: int, start: int, slices: seq<Slice>, m: SliceTree, x: NodeId, i: nat)
    requires Runnable(cfg, run) && !cfg.single && i < |cfg.meta| && Summed(cfg, i)
    requires from <= to && (After(cfg, run).slices != [] ==> start == After(cfg, run).start)
    requires MergedTo(cfg, After(cfg, run).slices, start, from, to + 1, slices, m)
    ensures IsDifference(m, TreeAt(cfg, run, from - 1), TreeAt(cfg, run, to), x, i)
  {
    var lo, hi := Upto(start, from), Upto(start, to + 1);
    SlicesHold(cfg, run, from - 1, start);
    SlicesHold(cfg, run, to, start);
    WindowParts(cfg, After(cfg, run).slices, slices, lo, hi);
    MergeDifference(cfg, slices, lo, hi, x, i);
    ReadAgreed(cfg, TreeAt(cfg, run, from - 1), Merge(cfg, slices[..lo]), x, i);
    ReadAgreed(cfg, TreeAt(cfg, run, to), Merge(cfg, slices[..hi]), x, i);
  }

  /** Only seen nodes are in a window, and in a static column they have the value
      the cumulative tree had at its end. */
  lemma WindowStatic(
    cfg: Config, run: seq<Action>, from: int, to: int, start: int, slices: seq<Slice>, m: SliceTree, x: NodeId, i: nat)
    requires Runnable(cfg, run) && !cfg.single && i < |cfg.meta| && x in m
    requires from <= to && (After(cfg, run).slices != [] ==> start == After(cfg, run).start)
    requires MergedTo(cfg, After(cfg, run).slices, start, from, to + 1, slices, m)
    ensures x in Seen(cfg, TreeAt(cfg, run, to))
    ensures cfg.meta[i].isStatic ==> SliceAll(m, x, i) == AllAt(TreeAt(cfg, run, to), x, i)
  {
    SlicesHold(cfg, run, to, start);
    EndOfWindow(cfg, TreeAt(cfg, run, to), After(cfg, run).slices, slices, Upto(start, from), Upto(start, to + 1), m, x, i);
  }

  lemma EndOfWindow(
    cfg: Config, tree: Tree, slices0: seq<Slice>, slices: seq<Slice>, lo: nat, hi: nat, m: SliceTree, x: NodeId, i: nat)
    requires AllWidths(cfg, slices0) && HeldAt(cfg, tree, slices0, hi) && ValidTree(cfg, tree)
    requires AllWidths(cfg, slices) && slices == Padded(slices0, hi) && lo <= hi <= |slices|
    requires m == Merge(cfg, slices[lo..hi]) && x in m && i < |cfg.meta|
    ensures x in Seen(cfg, tree)
    ensures cfg.meta[i].isStatic ==> SliceAll(m, x, i) == AllAt(tree, x, i)
  {
    WindowParts(cfg, slices0, slices, lo, hi);
    MergeAppend(cfg, slices[..lo], slices[lo..hi]);
    Split(slices, lo, hi);
    LastStatic(cfg, Merge(cfg, slices[..lo]), m, x, i);
    ReadAgreed(cfg, tree, Merge(cfg, slices[..hi]), x, i);
    RootSeen(cfg, tree);
  }

  lemma LastStatic(cfg: Config, a: SliceTree, m: SliceTree, x: NodeId, i: nat)
    requires SliceWidths(cfg, a) && SliceWidths(cfg, m) && x in m && i < |cfg.meta|
    ensures x in Onto(cfg, a, m)
    ensures cfg.meta[i].isStatic ==> SliceAll(Onto(cfg, a, m), x, i) == SliceAll(m, x, i)
  {
  }

  /** The two ends of a window, in terms of the slices there were before. */
  lemma WindowParts(cfg: Config, slices0: seq<Slice>, slices: seq<Slice>, lo: nat, hi: nat)
    requires AllWidths(cfg, slices0) && slices == Padded(slices0, hi) && lo <= hi <= |slices|
    ensures AllWidths(cfg, slices) && AllWidths(cfg, Cut(slices0, lo)) && AllWidths(cfg, Cut(slices0, hi))
    ensures Merge(cfg, slices[..lo]) == Merge(cfg, Cut(slices0, lo))
    ensures Merge(cfg, slices[..hi]) == Merge(cfg, Cut(slices0, hi))
  {
    CutPadded(cfg, slices0, hi, lo);
    CutPadded(cfg, slices0, hi, hi);
  }

  lemma ReadAgreed(cfg: Config, tree: Tree, merged: SliceTree, x: NodeId, i: nat)
    requires Agrees(cfg, tree, merged, x) && i < |cfg.meta|
    ensures SliceAll(merged, x, i) == AllAt(tree, x, i) && SliceCld(merged, x, i) == CldAt(tree, x, i)
    ensures SliceCount(merged, x) == CountAt(tree, x)
  {
  }

  ghost predicate SliceClosedAt(par: Parents, slices: seq<Slice>, k: nat)
    requires k < |slices|
  {
    ClosedIn(par, slices[k].tree.Keys)
  }

  /** The nodes of any window form a tree: closed under parents, and with the
      root if there are any. */
  lemma WindowClosed(
    cfg: Config, run: seq<Action>, from: int, to: int, start: int, slices: seq<Slice>, m: SliceTree)
    requires Runnable(cfg, run) && MergedTo(cfg, After(cfg, run).slices, start, from, to, slices, m)
    ensures ClosedIn(Par(After(cfg, run).tree), m.Keys)
  {
    var s := After(cfg, run);
    forall k | 0 <= k < |s.slices|
      ensures SliceClosedAt(Par(s.tree), s.slices, k)
    {
      SlicesClosed(cfg, run, k);
    }
    PartClosed(cfg, Par(s.tree), s.slices, slices, Upto(start, from), Upto(start, to));
  }

  lemma PartClosed(cfg: Config, par: Parents, slices0: seq<Slice>, slices: seq<Slice>, lo: nat, hi: nat)
    requires AllWidths(cfg, slices) && slices == Padded(slices0, hi) && lo <= hi <= |slices|
    requires forall k {:trigger SliceClosedAt(par, slices0, k)} :: 0 <= k < |slices0| ==> SliceClosedAt(par, slices0, k)
    ensures AllWidths(cfg, slices[lo..hi])
    ensures ClosedIn(par, Merge(cfg, slices[lo..hi]).Keys)
  {
    var w := slices[lo..hi];
    forall k | 0 <= k < |w|
      ensures SliceClosedAt(par, w, k)
    {
      if lo + k < |slices0| {
        assert SliceClosedAt(par, slices0, lo + k);
      }
    }
    MergeClosed(cfg, par, w);
  }

  lemma {:induction false} MergeClosed(cfg: Config, par: Parents, slices: seq<Slice>)
    requires AllWidths(cfg, slices)
    requires forall k {:trigger SliceClosedAt(par, slices, k)} :: 0 <= k < |slices| ==> SliceClosedAt(par, slices, k)
    ensures ClosedIn(par, Merge(cfg, slices).Keys)
  {
    if slices != [] {
      var init, last := slices[..|slices| - 1], slices[|slices| - 1];
      forall k | 0 <= k < |init|
        ensures SliceClosedAt(par, init, k)
      {
        assert SliceClosedAt(par, slices, k);
      }
      MergeClosed(cfg, par, init);
      assert SliceClosedAt(par, slices, |slices| - 1);
      ClosedUnion(par, Merge(cfg, init).Keys, last.tree.Keys);
    }
  }

  lemma ClosedUnion(par: Parents, a: set<NodeId>, b: set<NodeId>)
    requires UpClosed(par, a) && UpClosed(par, b)
    ensures UpClosed(par, a + b)
  {
    forall x | x in a + b && x in par
      ensures ClosedAt(par, a + b, x)
    {
      assert x in a ==> ClosedAt(par, a, x);
      assert x in b ==> ClosedAt(par, b, x);
    }
  }

  lemma ClosedGrows(par: Parents, big: Parents, s: set<NodeId>)
    requires WellFormed(par) && WellFormed(big) && Extends(par, big) && UpClosed(par, s) && s <= par.Keys
    ensures UpClosed(big, s)
  {
    forall x | x in s && x in big
      ensures ClosedAt(big, s, x)
    {
      assert ClosedAt(par, s, x) && Hangs(par, x);
    }
  }

  lemma {:induction false} SlicesClosed(cfg: Config, run: seq<Action>, k: nat)
    requires Runnable(cfg, run) && k < |After(cfg, run).slices|
    ensures SliceClosedAt(Par(After(cfg, run).tree), After(cfg, run).slices, k)
    decreases |run|
  {
    var init, a := run[..|run| - 1], run[|run| - 1];
    var s := After(cfg, init);
    if k < |s.slices| {
      SlicesClosed(cfg, init, k);
    }
    ActSlicesClosed(cfg, s, a, After(cfg, run), k);
  }

  lemma ActSlicesClosed(cfg: Config, s: State, a: Action, t: State, k: nat)
    requires Sound(cfg, s) && Enabled(cfg, s, a) && t == Act(cfg, s, a) && k < |t.slices|
    requires k < |s.slices| ==> SliceClosedAt(Par(s.tree), s.slices, k)
    ensures SliceClosedAt(Par(t.tree), t.slices, k)
  {
    SliceAfterAct(cfg, s, a, t, k);
    if a.Put? {
      StoreExtends(cfg, s.tree, a.ni.running, a.recs);
      if t.slices[k].tree == StoreSlice(cfg, s.tree, a.ni.running, a.recs) {
        SliceClosed(cfg, s.tree, a.ni.running, a.recs);
      } else if k < |s.slices| {
        ClosedGrows(Par(s.tree), Par(t.tree), s.slices[k].tree.Keys);
      }
    }
  }

  lemma SliceAfterAct(cfg: Config, s: State, a: Action, t: State, k: nat)
    requires Sound(cfg, s) && Enabled(cfg, s, a) && t == Act(cfg, s, a) && k < |t.slices|
    ensures || t.slices[k].tree == map[]
            || (k < |s.slices| && t.slices[k] == s.slices[k])
            || (a.Put? && t.slices[k].tree == StoreSlice(cfg, s.tree, a.ni.running, a.recs))
  {
    match a
    case Put(time, recs, ni) =>
      assert t == PutState(cfg, s, time, recs, ni);
      PutIs(cfg, s, time, recs, ni, time - StartAt(s, time), SliceOf(cfg, s.tree, recs, ni));
    case Look(time) =>
      assert t == LookState(cfg, s, time);
    case Remove =>
  }
}
