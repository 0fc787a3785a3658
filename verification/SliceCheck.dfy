/** The store's own run-time check, in every reachable state. */
module SliceChecks {
  import opened Wire
  import opened StoreModel
  import opened TimeSlices
  import opened StoreRuns
  import opened Representations
  import opened ThreadStores
  import CallTreeRuns
  import EndToEnd

  /** Stores happened at times from 0 to `now`. */
  ghost predicate StoresWithin(run: seq<Action>, now: int) {
    forall k :: 0 <= k < |run| && run[k].Put? ==> 0 <= run[k].time <= now
  }

  ghost predicate EarlyEmpty(slices: seq<Slice>, start: int) {
    forall k :: 0 <= k < |slices| && start + k < 0 ==> slices[k].tree == map[]
  }

  /** Slices for negative times are empty, and so are those for times to come:
      they can only come from look-ups. */
  ghost predicate FilledWithin(s: State, now: int) {
    EarlyEmpty(s.slices, s.start) && (s.filled > 0 ==> s.start + s.filled <= now + 1)
  }

  lemma PaddedEarly(slices: seq<Slice>, n: nat, start: int, started: int)
    requires EarlyEmpty(slices, start) && (slices != [] ==> started == start)
    ensures EarlyEmpty(Padded(slices, n), started)
  {
  }

  lemma PutEarly(slices: seq<Slice>, k: nat, slice: Slice, start: int, started: int)
    requires EarlyEmpty(slices, start) && (slices != [] ==> started == start) && started + k >= 0
    ensures EarlyEmpty(PutSlice(slices, k, slice), started)
  {
    PaddedEarly(slices, k + 1, start, started);
  }

  lemma {:induction false} RunFilledWithin(cfg: Config, run: seq<Action>, now: int)
    requires Runnable(cfg, run) && StoresWithin(run, now)
    ensures FilledWithin(After(cfg, run), now)
  {
    if run != [] {
      var init, a := run[..|run| - 1], run[|run| - 1];
      assert forall k :: 0 <= k < |init| ==> init[k] == run[k];
      RunFilledWithin(cfg, init, now);
      ActFilledWithin(cfg, After(cfg, init), a, After(cfg, run), now);
    }
  }

  lemma ActFilledWithin(cfg: Config, s: State, a: Action, t: State, now: int)
    requires Sound(cfg, s) && Enabled(cfg, s, a) && t == Act(cfg, s, a)
    requires FilledWithin(s, now) && (a.Put? ==> 0 <= a.time <= now)
    ensures FilledWithin(t, now)
  {
    match a
    case Put(time, recs, ni) =>
      var k, slice := time - StartAt(s, time), SliceOf(cfg, s.tree, recs, ni);
      assert t == PutState(cfg, s, time, recs, ni);
      PutIs(cfg, s, time, recs, ni, k, slice);
      PutEarly(s.slices, k, slice, s.start, StartAt(s, time));
    case Look(time) =>
      PaddedEarly(s.slices, Upto(StartAt(s, time), time + 1), s.start, StartAt(s, time));
      assert t == LookState(cfg, s, time);
    case Remove =>
  }

  /** Merging everything from time 0 up to now merges all there is. */
  lemma AllMerged(cfg: Config, s: State, now: int, start: int, slices: seq<Slice>, merged: SliceTree)
    requires Sound(cfg, s) && FilledWithin(s, now) && 0 <= now && (s.slices != [] ==> start == s.start)
    requires MergedTo(cfg, s.slices, start, 0, now + 1, slices, merged)
    ensures merged == Merge(cfg, s.slices)
  {
    var lo, n := Upto(start, 0), Upto(start, now + 1);
    MergePadded(cfg, s.slices, n);
    if s.slices != [] {
      PaddedEarly(s.slices, n, s.start, start);
    }
    assert EmptyFrom(slices, n);
    MergeMiddle(cfg, slices, lo, n);
  }

  lemma MergeMiddle(cfg: Config, slices: seq<Slice>, lo: nat, hi: nat)
    requires AllWidths(cfg, slices) && lo <= hi <= |slices| && EmptyFrom(slices, hi)
    requires forall k :: 0 <= k < lo ==> slices[k].tree == map[]
    ensures Merge(cfg, slices[lo..hi]) == Merge(cfg, slices)
  {
    MergeTrim(cfg, slices, hi);
    Split(slices, lo, hi);
    EmptyFirst(cfg, slices[..lo], slices[lo..hi]);
  }

  lemma EmptyFirst(cfg: Config, a: seq<Slice>, b: seq<Slice>)
    requires EmptyFrom(a, 0) && AllWidths(cfg, b)
    ensures AllWidths(cfg, a + b) && Merge(cfg, a + b) == Merge(cfg, b)
  {
    MergeEmpty(cfg, a);
    MergeAppend(cfg, a, b);
    OntoNothing(cfg, Merge(cfg, b));
  }

  /** The check merges the slices for the times 0 to `now` into `merged`. */
  ghost predicate Checks(
    cfg: Config, run: seq<Action>, now: int, start: int, slices: seq<Slice>, merged: SliceTree)
  {
    && Runnable(cfg, run) && StoresWithin(run, now) && 0 <= now
    && var s := After(cfg, run);
    && start == (if s.slices == [] then 0 else s.start)
    && MergedTo(cfg, s.slices, start, 0, now + 1, slices, merged)
  }

  lemma CheckMergesAll(
    cfg: Config, run: seq<Action>, now: int, start: int, slices: seq<Slice>, merged: SliceTree)
    requires Checks(cfg, run, now, start, slices, merged)
    ensures merged == Merge(cfg, After(cfg, run).slices)
  {
    RunFilledWithin(cfg, run, now);
    AllMerged(cfg, After(cfg, run), now, start, slices, merged);
  }

  /** The check looks up in vain just the nodes that no store since the last
      removal of slices has marked and cleared, in both modes, wherever look-ups
      have moved the first slice. Outside single-tree mode it finds no
      difference, and these are the nodes below attribute nodes, or the root as
      long as nothing was marked at all. */
  lemma CheckFindsNothing(cfg: Config, run: seq<Action>, now: int, start: int, slices: seq<Slice>, merged: SliceTree)
    requires Checks(cfg, run, now, start, slices, merged)
    ensures var t := After(cfg, run).tree;
      && t.Keys - merged.Keys == t.Keys - Kept(cfg, run)
      && (t.Keys - merged.Keys == {} <==> Kept(cfg, run) == t.Keys)
      && (!cfg.single ==>
            && (forall x :: x in t && x in merged ==> t[x].all == merged[x].all && t[x].cld == merged[x].cld)
            && t.Keys - merged.Keys == if MarkedSome(cfg, run) then t.Keys - Seen(cfg, t) else {ROOT})
  {
    var s := After(cfg, run);
    CheckMergesAll(cfg, run, now, start, slices, merged);
    MergedNodes(cfg, run);
    MergedKnown(cfg, run);
    MissingIff(s.tree.Keys, merged.Keys);
    if !cfg.single {
      NoDifference(cfg, run, merged);
      KeptIsSeen(cfg, run);
    }
  }

  lemma MissingIff(keys: set<NodeId>, merged: set<NodeId>)
    requires merged <= keys
    ensures keys - merged == {} <==> merged == keys
  {
    if merged != keys {
      var x :| x in keys && x !in merged;
      assert x in keys - merged;
    }
  }

  lemma NoDifference(cfg: Config, run: seq<Action>, merged: SliceTree)
    requires Runnable(cfg, run) && !cfg.single && merged == Merge(cfg, After(cfg, run).slices)
    ensures var t := After(cfg, run).tree;
      forall x :: x in t && x in merged ==> t[x].all == merged[x].all && t[x].cld == merged[x].cld
  {
    var t := After(cfg, run).tree;
    forall x | x in t && x in merged
      ensures t[x].all == merged[x].all && t[x].cld == merged[x].cld
    {
      RepresentationsAgree(cfg, run, x);
    }
  }

  // ------------------------------------------------- in single-tree mode

  /** The tree as the last removal of slices left it. */
  ghost function AtRemoval(cfg: Config, run: seq<Action>): Tree
    requires Runnable(cfg, run)
    decreases |run|
  {
    if run == [] then FirstTree(cfg)
    else if run[|run| - 1].Remove? then After(cfg, run).tree
    else AtRemoval(cfg, run[..|run| - 1])
  }

  /** The root's totals are those at the last removal and those of the merged
      slices; its static values are the latest in both. */
  ghost predicate RootSplits(cfg: Config, base: SliceNode, root: SliceNode, merged: SliceTree) {
    && NodeWidths(cfg, base) && NodeWidths(cfg, root) && NodeWidths(cfg, NodeOr(cfg, merged, ROOT))
    && (forall i {:trigger RootSplitsAt(cfg, base, root, NodeOr(cfg, merged, ROOT), i)} :: 0 <= i < |cfg.meta| ==>
          RootSplitsAt(cfg, base, root, NodeOr(cfg, merged, ROOT), i))
    && (ROOT in merged ==> forall i :: 0 <= i < |cfg.meta| && cfg.meta[i].isStatic ==>
          root.all[i] == merged[ROOT].all[i])
  }

  ghost predicate RootSplitsAt(cfg: Config, base: SliceNode, root: SliceNode, m: SliceNode, i: nat)
    requires i < |cfg.meta| && NodeWidths(cfg, base) && NodeWidths(cfg, root) && NodeWidths(cfg, m)
  {
    if cfg.meta[i].isStatic then root.cld[i] == m.cld[i] == base.cld[i] == 0
    else root.all[i] == base.all[i] + m.all[i] && root.cld[i] == base.cld[i] + m.cld[i]
  }

  lemma RootStaged(cfg: Config, tree: Tree, run: NodeId, recs: seq<Record>)
    requires Good(cfg, tree) && Fits(cfg, tree, recs)
    ensures ROOT in Staged(cfg, tree, run, recs)
    ensures ValuesOf(cfg, Staged(cfg, tree, run, recs), ROOT) == ValuesOf(cfg, tree, ROOT)
  {
    StagedValid(cfg, tree, run, recs);
    assert ROOT in Par(tree) && ROOT in Par(Staged(cfg, tree, run, recs));
    StagedNode(cfg, tree, run, recs, ROOT);
    AddAllValues(cfg, tree, recs);
  }

  lemma RootSettles(cfg: Config, g: Tree, c: set<NodeId>, base: SliceNode, root: SliceNode, merged: SliceTree)
    requires ValidTree(cfg, g) && ROOT in g && root == ValuesOf(cfg, g, ROOT)
    requires SliceWidths(cfg, merged) && SliceWidths(cfg, SettledSlices(cfg, g, c, g.Keys))
    requires RootSplits(cfg, base, root, merged)
    ensures RootSplits(cfg, base, ValuesOf(cfg, Settle(cfg, g, c), ROOT),
                       Onto(cfg, merged, SettledSlices(cfg, g, c, g.Keys)))
  {
    assert ValidNode(cfg, g, ROOT);
    var slice := SettledSlices(cfg, g, c, g.Keys);
    var n, m, was := SettledNode(cfg, g, c, ROOT), Onto(cfg, merged, slice), NodeOr(cfg, merged, ROOT);
    assert Settle(cfg, g, c)[ROOT] == n;
    if ROOT in c {
      assert m[ROOT] == Accumulate(cfg, was, SettledSlice(cfg, g, c, ROOT));
      forall i | 0 <= i < |cfg.meta|
        ensures RootSplitsAt(cfg, base, SliceNode(n.all, n.cld, n.callCount), m[ROOT], i)
      {
        assert RootSplitsAt(cfg, base, root, was, i);
      }
    } else {
      assert n == g[ROOT] && NodeOr(cfg, m, ROOT) == was;
    }
  }

  lemma RootRestarts(cfg: Config, base: SliceNode, root: SliceNode, merged: SliceTree)
    requires RootSplits(cfg, base, root, merged)
    ensures RootSplits(cfg, root, root, map[])
  {
    forall i | 0 <= i < |cfg.meta|
      ensures RootSplitsAt(cfg, root, root, NodeOr(cfg, map[], ROOT), i)
    {
      assert RootSplitsAt(cfg, base, root, NodeOr(cfg, merged, ROOT), i);
    }
  }

  lemma RootBegins(cfg: Config)
    ensures var root := ValuesOf(cfg, FirstTree(cfg), ROOT); RootSplits(cfg, root, root, map[])
  {
    var root := ValuesOf(cfg, FirstTree(cfg), ROOT);
    assert root == ZeroNode(cfg);
    forall i | 0 <= i < |cfg.meta|
      ensures RootSplitsAt(cfg, root, root, NodeOr(cfg, map[], ROOT), i)
    {
    }
  }

  lemma {:induction false} RunSplits(cfg: Config, run: seq<Action>)
    requires Runnable(cfg, run)
    ensures var s := After(cfg, run);
      RootSplits(cfg, ValuesOf(cfg, AtRemoval(cfg, run), ROOT), ValuesOf(cfg, s.tree, ROOT), Merge(cfg, s.slices))
  {
    if run != [] {
      var init, a := run[..|run| - 1], run[|run| - 1];
      var s := After(cfg, init);
      RunSplits(cfg, init);
      ActEffect(cfg, s, a, After(cfg, run));
      if a.Put? {
        RootStored(cfg, s.tree, a.ni.running, a.recs, ValuesOf(cfg, AtRemoval(cfg, init), ROOT), Merge(cfg, s.slices));
      } else if a.Remove? {
        RootRestarts(cfg, ValuesOf(cfg, AtRemoval(cfg, init), ROOT), ValuesOf(cfg, s.tree, ROOT), Merge(cfg, s.slices));
      }
    } else {
      RootBegins(cfg);
    }
  }

  lemma RootStored(cfg: Config, tree: Tree, run: NodeId, recs: seq<Record>, base: SliceNode, merged: SliceTree)
    requires Good(cfg, tree) && Fits(cfg, tree, recs) && SliceWidths(cfg, merged)
    requires SliceWidths(cfg, StoreSlice(cfg, tree, run, recs))
    requires RootSplits(cfg, base, ValuesOf(cfg, tree, ROOT), merged)
    ensures RootSplits(cfg, base, ValuesOf(cfg, StoreTree(cfg, tree, run, recs), ROOT),
                       Onto(cfg, merged, StoreSlice(cfg, tree, run, recs)))
  {
    var g := Staged(cfg, tree, run, recs);
    StagedValid(cfg, tree, run, recs);
    RootStaged(cfg, tree, run, recs);
    RootSettles(cfg, g, Collected(cfg, g), base, ValuesOf(cfg, tree, ROOT), merged);
  }

  lemma RootDiffersIff(cfg: Config, base: SliceNode, root: SliceNode, merged: SliceTree)
    requires RootSplits(cfg, base, root, merged) && ROOT in merged
    ensures root.all != merged[ROOT].all || root.cld != merged[ROOT].cld
       <==> exists i :: 0 <= i < |cfg.meta| && !cfg.meta[i].isStatic && (base.all[i] != 0 || base.cld[i] != 0)
  {
    var m := merged[ROOT];
    forall i | 0 <= i < |cfg.meta|
      ensures root.all[i] != m.all[i] || root.cld[i] != m.cld[i]
         <==> !cfg.meta[i].isStatic && (base.all[i] != 0 || base.cld[i] != 0)
    {
      assert RootSplitsAt(cfg, base, root, m, i);
    }
  }

  /** In single-tree mode the check finds every node but the root wrong that has
      been stored since the last removal, as these keep no totals; and the root,
      if anything had been added up in it before that removal. */
  lemma CheckFindsAll(cfg: Config, run: seq<Action>, now: int, start: int, slices: seq<Slice>, merged: SliceTree)
    requires Checks(cfg, run, now, start, slices, merged) && cfg.single && |cfg.meta| > 0
    ensures var t, base := After(cfg, run).tree, AtRemoval(cfg, run);
      && ROOT in base && |base[ROOT].all| == |base[ROOT].cld| == |cfg.meta|
      && (forall x :: x in t && x in merged && x != ROOT ==>
            t[x].all != merged[x].all && t[x].cld != merged[x].cld)
      && ROOT in t
      && (ROOT in merged ==>
            (t[ROOT].all != merged[ROOT].all || t[ROOT].cld != merged[ROOT].cld
             <==> exists i :: 0 <= i < |cfg.meta| && !cfg.meta[i].isStatic
                              && (base[ROOT].all[i] != 0 || base[ROOT].cld[i] != 0)))
  {
    var t := After(cfg, run).tree;
    CheckMergesAll(cfg, run, now, start, slices, merged);
    RunSplits(cfg, run);
    RemovalTree(cfg, run);
    assert ROOT in Par(t);
    if ROOT in merged {
      RootDiffersIff(cfg, ValuesOf(cfg, AtRemoval(cfg, run), ROOT), ValuesOf(cfg, t, ROOT), merged);
    }
    forall x | x in t && x in merged && x != ROOT
      ensures t[x].all != merged[x].all && t[x].cld != merged[x].cld
    {
      assert ValidNode(cfg, t, x);
    }
  }

  lemma {:induction false} RemovalTree(cfg: Config, run: seq<Action>)
    requires Runnable(cfg, run)
    ensures var base := AtRemoval(cfg, run);
      ROOT in base && |base[ROOT].all| == |base[ROOT].cld| == |cfg.meta|
  {
    if run != [] && !run[|run| - 1].Remove? {
      RemovalTree(cfg, run[..|run| - 1]);
    } else {
      var base := AtRemoval(cfg, run);
      assert ROOT in Par(base) && ValidNode(cfg, base, ROOT);
    }
  }

  /** In single-tree mode every node is looked up in vain once the slices have
      been gathered and thrown away. */
  lemma CheckAfterRemoval(cfg: Config, run: seq<Action>, now: int, start: int, slices: seq<Slice>, merged: SliceTree)
    requires Runnable(cfg, run) && cfg.single && Checks(cfg, run + [Remove], now, start, slices, merged)
    ensures After(cfg, run + [Remove]).tree.Keys - merged.Keys == After(cfg, run).tree.Keys != {}
  {
    var more := run + [Remove];
    assert more[..|more| - 1] == run;
    CheckFindsNothing(cfg, more, now, start, slices, merged);
    assert ROOT in After(cfg, run).tree by {
      assert ROOT in Par(After(cfg, run).tree);
    }
  }

  /** The check of a profiled thread never finds nothing marked: outside
      single-tree mode it finds no difference, and looks up in vain the nodes
      inside a call named like an attribute, and no others. */
  lemma ThreadCheck(
    cfg: Config, trace: seq<CallTreeRuns.Event>, log: seq<Action>, now: int, start: int,
    slices: seq<Slice>, merged: SliceTree)
    requires EndToEnd.Feeds(cfg, trace, log) && !cfg.single && Checks(cfg, log, now, start, slices, merged)
    requires trace != [] && trace[|trace| - 1].SnapshotEvent?
    ensures var tree, p := After(cfg, log).tree, CallTreeRuns.Run(|cfg.meta|, trace);
      && (forall n :: n in tree && n in merged ==> tree[n].all == merged[n].all && tree[n].cld == merged[n].cld)
      && forall n :: n in tree ==>
           && 1 <= n < |p.thread.nodes|
           && (n in merged <==> EndToEnd.Exposed(cfg, CallTreeRuns.Path(p.thread.nodes, n)))
  {
    EndToEnd.ThreadKept(cfg, trace, log);
    CheckFindsNothing(cfg, log, now, start, slices, merged);
    CheckMergesAll(cfg, log, now, start, slices, merged);
    MergedNodes(cfg, log);
  }
}
