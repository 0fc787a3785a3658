/** The viewer fed by the monitor: replies can always be linked, keep the
    viewer's values equal to the monitor's, and give sensible self values. */
module ViewerSync {
  import opened Wire
  import opened Sums
  import opened Forest
  import opened Ordering
  import opened StoreModel
  import opened TimeSlices
  import opened StoreRuns
  import opened Representations
  import opened Viewer

  /** What a store sends for a set of nodes: in ascending order of ids, with
      parents from its current tree. */
  ghost function DumpOf(par: Parents, values: SliceTree, ids: seq<NodeId>): seq<DumpNode>
    requires forall x :: x in ids ==> x in par && x in values
  {
    if ids == [] then []
    else
      var init, x := ids[..|ids| - 1], ids[|ids| - 1];
      DumpOf(par, values, init) + [DumpNode(x, par[x], values[x])]
  }

  ghost function Dump(par: Parents, values: SliceTree): seq<DumpNode>
    requires values.Keys <= par.Keys
  {
    AscendingElements(values.Keys);
    DumpOf(par, values, Ascending(values.Keys))
  }

  ghost function Elements(ids: seq<NodeId>): set<NodeId> {
    set x | x in ids
  }

  lemma {:induction false} DumpOfIds(par: Parents, values: SliceTree, ids: seq<NodeId>)
    requires forall x :: x in ids ==> x in par && x in values
    ensures DumpIds(DumpOf(par, values, ids)) == Elements(ids)
  {
    if ids != [] {
      var init, last := ids[..|ids| - 1], ids[|ids| - 1];
      DumpOfIds(par, values, init);
      var dump := DumpOf(par, values, ids);
      assert dump[..|dump| - 1] == DumpOf(par, values, init);
      assert Elements(ids) == Elements(init) + {last} by {
        assert ids == init + [last];
      }
    }
  }

  /** Parents come before their children, so every reply can be linked. */
  lemma {:induction false} DumpOfOrdered(
    par: Parents, values: SliceTree, keys: set<NodeId>, n: nat, known: set<NodeId>)
    requires WellFormed(par) && keys <= par.Keys && keys <= values.Keys
    requires UpClosed(par, keys) && n <= |Ascending(keys)|
    requires forall x :: x in Ascending(keys)[..n] ==> x in par && x in values
    ensures Ordered(known, DumpOf(par, values, Ascending(keys)[..n]))
  {
    var ids := Ascending(keys)[..n];
    if n > 0 {
      var init, x := Ascending(keys)[..n - 1], Ascending(keys)[n - 1];
      assert ids[..|ids| - 1] == init;
      DumpOfOrdered(par, values, keys, n - 1, known);
      DumpOfIds(par, values, init);
      ParentFirst(par, keys, n - 1);
      var dump := DumpOf(par, values, ids);
      assert dump[..|dump| - 1] == DumpOf(par, values, init);
    }
  }

  lemma ParentFirst(par: Parents, keys: set<NodeId>, k: nat)
    requires WellFormed(par) && keys <= par.Keys && UpClosed(par, keys) && k < |Ascending(keys)|
    ensures var ids := Ascending(keys); var x := ids[k];
      && x in par
      && ((x == ROOT && par[x] == 0) || (par[x] in Elements(ids[..k]) && par[x] < x))
  {
    AscendingElements(keys);
    var x := Ascending(keys)[k];
    assert x in Ascending(keys);
    assert Hangs(par, x) && ClosedAt(par, keys, x);
    if x != ROOT {
      AscendingBefore(keys, k, par[x]);
    }
  }

  /** In what is sent for a set of nodes closed under parents, each node comes
      after its parent. */
  lemma RepliesLink(par: Parents, values: SliceTree, known: set<NodeId>)
    requires WellFormed(par) && ClosedIn(par, values.Keys)
    ensures Ordered(known, Dump(par, values)) && DumpIds(Dump(par, values)) == values.Keys
  {
    var ids := Ascending(values.Keys);
    AscendingElements(values.Keys);
    assert ids[..|ids|] == ids;
    DumpOfOrdered(par, values, values.Keys, |ids|, known);
    DumpOfIds(par, values, ids);
    assert Elements(ids) == values.Keys;
  }

  lemma ReplyWidths(cfg: Config, par: Parents, values: SliceTree)
    requires values.Keys <= par.Keys && SliceWidths(cfg, values)
    ensures DumpWidths(cfg, Dump(par, values))
  {
    AscendingElements(values.Keys);
    DumpOfWidths(cfg, par, values, Ascending(values.Keys));
  }

  lemma {:induction false} DumpOfWidths(cfg: Config, par: Parents, values: SliceTree, ids: seq<NodeId>)
    requires forall x :: x in ids ==> x in par && x in values
    requires SliceWidths(cfg, values)
    ensures DumpWidths(cfg, DumpOf(par, values, ids))
  {
    if ids != [] {
      DumpOfWidths(cfg, par, values, ids[..|ids| - 1]);
    }
  }

  ghost function Restrict(values: SliceTree, keys: set<NodeId>): SliceTree
    requires keys <= values.Keys
  {
    map x | x in keys :: values[x]
  }

  lemma ElementsSnoc(ids: seq<NodeId>)
    requires ids != [] && forall i, j :: 0 <= i < j < |ids| ==> ids[i] < ids[j]
    ensures Elements(ids) == Elements(ids[..|ids| - 1]) + {ids[|ids| - 1]}
    ensures ids[|ids| - 1] !in Elements(ids[..|ids| - 1])
  {
    assert ids == ids[..|ids| - 1] + [ids[|ids| - 1]];
  }

  lemma RestrictSnoc(values: SliceTree, keys: set<NodeId>, x: NodeId)
    requires keys <= values.Keys && x in values
    ensures Restrict(values, keys + {x}) == Restrict(values, keys)[x := values[x]]
  {
  }

  /** Accumulating a whole reply is accumulating the set of values it was made from. */
  lemma {:induction false} DumpOnto(cfg: Config, base: SliceTree, par: Parents, values: SliceTree, ids: seq<NodeId>)
    requires SliceWidths(cfg, base) && SliceWidths(cfg, values)
    requires forall x :: x in ids ==> x in par && x in values
    requires forall i, j :: 0 <= i < j < |ids| ==> ids[i] < ids[j]
    ensures DumpWidths(cfg, DumpOf(par, values, ids))
    ensures OntoDump(cfg, base, DumpOf(par, values, ids)) == Onto(cfg, base, Restrict(values, Elements(ids)))
  {
    DumpOfWidths(cfg, par, values, ids);
    if ids == [] {
      assert Restrict(values, Elements(ids)) == map[];
      OntoEmpty(cfg, base);
    } else {
      var init, last := ids[..|ids| - 1], ids[|ids| - 1];
      DumpOnto(cfg, base, par, values, init);
      var dump := DumpOf(par, values, ids);
      assert dump[..|dump| - 1] == DumpOf(par, values, init);
      ElementsSnoc(ids);
      RestrictSnoc(values, Elements(init), last);
      OntoOne(cfg, base, Restrict(values, Elements(init)), last, values[last]);
    }
  }

  lemma OntoOne(cfg: Config, base: SliceTree, a: SliceTree, id: NodeId, v: SliceNode)
    requires SliceWidths(cfg, base) && SliceWidths(cfg, a) && NodeWidths(cfg, v) && id !in a
    ensures SliceWidths(cfg, a[id := v])
    ensures Onto(cfg, Onto(cfg, base, a), map[id := v]) == Onto(cfg, base, a[id := v])
  {
    var l, r := Onto(cfg, Onto(cfg, base, a), map[id := v]), Onto(cfg, base, a[id := v]);
    assert l.Keys == r.Keys;
  }

  lemma ReplyOnto(cfg: Config, base: SliceTree, par: Parents, values: SliceTree)
    requires SliceWidths(cfg, base) && SliceWidths(cfg, values) && values.Keys <= par.Keys
    ensures DumpWidths(cfg, Dump(par, values))
    ensures OntoDump(cfg, base, Dump(par, values)) == Onto(cfg, base, values)
  {
    AscendingElements(values.Keys);
    WholeKeys(values);
    DumpOnto(cfg, base, par, values, Ascending(values.Keys));
  }

  lemma WholeKeys(values: SliceTree)
    ensures Elements(Ascending(values.Keys)) == values.Keys
    ensures Restrict(values, Elements(Ascending(values.Keys))) == values
  {
    AscendingElements(values.Keys);
  }

  // --------------------------------------------------------- staying in sync

  ghost function CurrentValues(cfg: Config, tree: Tree): SliceTree {
    map x | x in tree :: ValuesOf(cfg, tree, x)
  }

  /** The values of some of the nodes. */
  ghost function ValuesIn(cfg: Config, tree: Tree, keys: set<NodeId>): SliceTree {
    map x | x in tree && x in keys :: ValuesOf(cfg, tree, x)
  }

  /** A viewer that shows the cumulative tree just before `from` shows that at
      `to` once it has accumulated the window in between, except that it has not
      heard of new nodes below attribute nodes. */
  lemma ViewerInSync(cfg: Config, run: seq<Action>, from: int, to: int, start: int, slices: seq<Slice>, m: SliceTree)
    requires Runnable(cfg, run) && !cfg.single
    requires from <= to && (After(cfg, run).slices != [] ==> start == After(cfg, run).start)
    requires MergedTo(cfg, After(cfg, run).slices, start, from, to + 1, slices, m)
    ensures var a, b := TreeAt(cfg, run, from - 1), TreeAt(cfg, run, to);
      && SliceWidths(cfg, CurrentValues(cfg, a)) && SliceWidths(cfg, m)
      && Onto(cfg, CurrentValues(cfg, a), m) == ValuesIn(cfg, b, a.Keys + Seen(cfg, b))
      && a.Keys <= b.Keys
  {
    SlicesHold(cfg, run, from - 1, start);
    SlicesHold(cfg, run, to, start);
    TreeAtGrows(cfg, run, from - 1, to);
    SyncWindow(cfg, TreeAt(cfg, run, from - 1), TreeAt(cfg, run, to), After(cfg, run).slices, slices,
               Upto(start, from), Upto(start, to + 1), m);
  }

  lemma SyncWindow(
    cfg: Config, a: Tree, b: Tree, slices0: seq<Slice>, slices: seq<Slice>, lo: nat, hi: nat, m: SliceTree)
    requires AllWidths(cfg, slices0) && HeldAt(cfg, a, slices0, lo) && HeldAt(cfg, b, slices0, hi)
    requires AllWidths(cfg, slices) && slices == Padded(slices0, hi) && lo <= hi <= |slices|
    requires m == Merge(cfg, slices[lo..hi]) && a.Keys <= b.Keys && ValidTree(cfg, a)
    ensures SliceWidths(cfg, CurrentValues(cfg, a))
    ensures Onto(cfg, CurrentValues(cfg, a), m) == ValuesIn(cfg, b, a.Keys + Seen(cfg, b))
  {
    WindowParts(cfg, slices0, slices, lo, hi);
    MergeAppend(cfg, slices[..lo], slices[lo..hi]);
    Split(slices, lo, hi);
    RootSeen(cfg, a);
    SyncValues(cfg, a, b, Merge(cfg, slices[..lo]), m);
  }

  ghost predicate Holds(cfg: Config, tree: Tree, merged: SliceTree) {
    && (forall x {:trigger Agrees(cfg, tree, merged, x)} :: Agrees(cfg, tree, merged, x))
    && KeepsSeen(cfg, tree, merged.Keys)
  }

  lemma SyncValues(cfg: Config, from: Tree, to: Tree, merged: SliceTree, w: SliceTree)
    requires SliceWidths(cfg, merged) && SliceWidths(cfg, w) && from.Keys <= to.Keys
    requires ROOT in Seen(cfg, from)
    requires Holds(cfg, from, merged) && Holds(cfg, to, Onto(cfg, merged, w))
    ensures SliceWidths(cfg, CurrentValues(cfg, from))
    ensures Onto(cfg, CurrentValues(cfg, from), w) == ValuesIn(cfg, to, from.Keys + Seen(cfg, to))
  {
    ValueWidths(cfg, from, merged);
    var l, keys := Onto(cfg, CurrentValues(cfg, from), w), from.Keys + Seen(cfg, to);
    SyncKeys(from.Keys, to.Keys, Seen(cfg, from), Seen(cfg, to), merged.Keys, w.Keys);
    forall x | x in l
      ensures l[x] == ValuesOf(cfg, to, x)
    {
      assert Agrees(cfg, from, merged, x) && Agrees(cfg, to, Onto(cfg, merged, w), x);
      SyncAt(cfg, from, to, merged, w, x);
    }
    AreValuesIn(cfg, to, keys, l);
  }

  lemma AreValuesIn(cfg: Config, to: Tree, keys: set<NodeId>, l: SliceTree)
    requires l.Keys == to.Keys * keys && forall x :: x in l ==> l[x] == ValuesOf(cfg, to, x)
    ensures l == ValuesIn(cfg, to, keys)
  {
    SameMap(l, ValuesIn(cfg, to, keys));
  }

  lemma SyncKeys(
    from: set<NodeId>, to: set<NodeId>, seenFrom: set<NodeId>, seenTo: set<NodeId>,
    merged: set<NodeId>, w: set<NodeId>)
    requires from <= to && seenFrom <= from && seenTo <= to && ROOT in seenFrom
    requires merged == seenFrom || (merged == {} && from == {ROOT})
    requires merged + w == seenTo || (merged + w == {} && to == {ROOT})
    ensures from + w == to * (from + seenTo)
  {
  }

  lemma ValueWidths(cfg: Config, tree: Tree, merged: SliceTree)
    requires forall x {:trigger Agrees(cfg, tree, merged, x)} :: Agrees(cfg, tree, merged, x)
    ensures SliceWidths(cfg, CurrentValues(cfg, tree))
  {
    forall x | x in tree
      ensures NodeWidths(cfg, CurrentValues(cfg, tree)[x])
    {
      assert Agrees(cfg, tree, merged, x);
    }
  }

  lemma SyncAt(cfg: Config, from: Tree, to: Tree, merged: SliceTree, w: SliceTree, x: NodeId)
    requires SliceWidths(cfg, merged) && SliceWidths(cfg, w) && SliceWidths(cfg, CurrentValues(cfg, from))
    requires Agrees(cfg, from, merged, x) && Agrees(cfg, to, Onto(cfg, merged, w), x)
    requires x in from || x in w
    ensures ValuesOf(cfg, to, x) == Onto(cfg, CurrentValues(cfg, from), w)[x]
  {
    assert x in w ==> NodeWidths(cfg, w[x]);
    assert NodeOr(cfg, CurrentValues(cfg, from), x) == ValuesOf(cfg, from, x);
    assert NodeOr(cfg, merged, x) == ValuesOf(cfg, from, x);
  }

  // ------------------------------------------------------ what a viewer shows

  /** The view has the given values, parents as in `tree`, and the running node
      and its ancestors flagged. */
  ghost predicate ShowsValues(view: View, tree: Tree, values: SliceTree, run: Option<NodeId>) {
    && ViewValues(view) == values
    && Extends(ViewPar(view), Par(tree))
    && forall x :: x in view ==> (view[x].running <==> run.Some? && Under(ViewPar(view), x, run.value))
  }

  /** Taking a reply on top of what was shown before. */
  lemma ReplyShown(
    cfg: Config, before: View, after: View, tree: Tree, values: SliceTree, run: Option<NodeId>)
    requires WellFormed(Par(tree)) && ClosedIn(Par(tree), values.Keys) && SliceWidths(cfg, values)
    requires ViewWidths(cfg, before) && Extends(ViewPar(before), Par(tree))
    requires Updated(cfg, before, after, Dump(Par(tree), values), run)
    ensures ShowsValues(after, tree, Onto(cfg, ViewValues(before), values), run)
  {
    ReplyOnto(cfg, ViewValues(before), Par(tree), values);
    AscendingElements(values.Keys);
    ParentsShown(before, after, Par(tree), values, Ascending(values.Keys));
  }

  lemma ParentsShown(before: View, after: View, par: Parents, values: SliceTree, ids: seq<NodeId>)
    requires forall y :: y in ids ==> y in par && y in values
    requires Extends(ViewPar(before), par) && Extends(ViewPar(before), ViewPar(after))
    requires NewFrom(before, after, DumpOf(par, values, ids))
    ensures Extends(ViewPar(after), par)
  {
    var shown := ViewPar(after);
    forall x | x in shown
      ensures x in par && par[x] == shown[x]
    {
      if x in before {
        assert ViewPar(before)[x] == shown[x];
      } else {
        SentParent(par, values, ids, x, after[x].pid);
      }
    }
  }

  lemma {:induction false} SentParent(par: Parents, values: SliceTree, ids: seq<NodeId>, x: NodeId, pid: NodeId)
    requires forall y :: y in ids ==> y in par && y in values
    requires Sends(DumpOf(par, values, ids), x, pid)
    ensures x in par && par[x] == pid
  {
    var dump := DumpOf(par, values, ids);
    var k :| 0 <= k < |dump| && dump[k].id == x && dump[k].pid == pid;
    if k < |dump| - 1 {
      var init := ids[..|ids| - 1];
      assert DumpOf(par, values, init)[k] == dump[k];
      SentParent(par, values, init, x, pid);
    }
  }

  /** Every reply of a thread's store, in either mode, whether for the current
      tree or for a window, lists parents first. */
  lemma ThreadRepliesLink(
    cfg: Config, run: seq<Action>, from: int, to: int, start: int, slices: seq<Slice>, m: SliceTree, known: set<NodeId>)
    requires Runnable(cfg, run) && MergedTo(cfg, After(cfg, run).slices, start, from, to, slices, m)
    ensures var tree := After(cfg, run).tree;
      && Ordered(known, Dump(Par(tree), CurrentValues(cfg, tree)))
      && m.Keys <= tree.Keys && Ordered(known, Dump(Par(tree), m))
  {
    var tree := After(cfg, run).tree;
    WindowClosed(cfg, run, from, to, start, slices, m);
    WholeTreeClosed(Par(tree));
    assert CurrentValues(cfg, tree).Keys == Par(tree).Keys;
    RepliesLink(Par(tree), CurrentValues(cfg, tree), known);
    RepliesLink(Par(tree), m, known);
  }

  lemma WholeTreeClosed(par: Parents)
    requires WellFormed(par)
    ensures ClosedIn(par, par.Keys)
  {
  }

  /** Reloading: a reply with the whole cumulative tree can be linked into an
      empty view, which then shows that tree. */
  lemma ReloadShowsTree(cfg: Config, tree: Tree, after: View, run: Option<NodeId>)
    requires Good(cfg, tree) && !cfg.single
    ensures SliceWidths(cfg, CurrentValues(cfg, tree))
    ensures var dump := Dump(Par(tree), CurrentValues(cfg, tree));
      && Ordered({}, dump) && DumpWidths(cfg, dump)
      && (Updated(cfg, map[], after, dump, run) ==>
            ViewPar(after) == Par(tree) && ShowsValues(after, tree, CurrentValues(cfg, tree), run))
  {
    var values := CurrentValues(cfg, tree);
    WholeClosed(cfg, tree);
    RepliesLink(Par(tree), values, {});
    ReplyWidths(cfg, Par(tree), values);
    if Updated(cfg, map[], after, Dump(Par(tree), values), run) {
      Reloaded(cfg, tree, values, after, run);
    }
  }

  lemma Reloaded(cfg: Config, tree: Tree, values: SliceTree, after: View, run: Option<NodeId>)
    requires WellFormed(Par(tree)) && ClosedIn(Par(tree), values.Keys) && SliceWidths(cfg, values)
    requires values.Keys == tree.Keys && Updated(cfg, map[], after, Dump(Par(tree), values), run)
    ensures ViewPar(after) == Par(tree) && ShowsValues(after, tree, values, run)
  {
    ReplyShown(cfg, map[], after, tree, values, run);
    OntoNothing(cfg, values);
    assert ViewValues(map[]) == map[];
    assert ViewValues(after).Keys == values.Keys;
    SameMap(ViewPar(after), Par(tree));
  }

  lemma WholeClosed(cfg: Config, tree: Tree)
    requires ValidTree(cfg, tree) && !cfg.single
    ensures SliceWidths(cfg, CurrentValues(cfg, tree)) && ClosedIn(Par(tree), CurrentValues(cfg, tree).Keys)
  {
    forall x | x in tree
      ensures NodeWidths(cfg, ValuesOf(cfg, tree, x)) && ClosedAt(Par(tree), tree.Keys, x)
    {
      assert ValidNode(cfg, tree, x);
    }
    assert ROOT in Par(tree);
  }

  /** Following: a view of the cumulative tree just before `from` that takes the
      reply for the window from `from` to `to` shows the tree at `to`. */
  lemma WindowShowsTree(
    cfg: Config, run: seq<Action>, from: int, to: int, start: int, slices: seq<Slice>, m: SliceTree,
    before: View, after: View, running: Option<NodeId>)
    requires Runnable(cfg, run) && !cfg.single
    requires from <= to && (After(cfg, run).slices != [] ==> start == After(cfg, run).start)
    requires MergedTo(cfg, After(cfg, run).slices, start, from, to + 1, slices, m)
    requires var tree, a := After(cfg, run).tree, TreeAt(cfg, run, from - 1);
      ViewValues(before) == CurrentValues(cfg, a) && Extends(ViewPar(before), Par(tree))
    ensures var tree, a, b := After(cfg, run).tree, TreeAt(cfg, run, from - 1), TreeAt(cfg, run, to);
      && m.Keys <= tree.Keys
      && Ordered(before.Keys, Dump(Par(tree), m)) && DumpWidths(cfg, Dump(Par(tree), m))
      && (Updated(cfg, before, after, Dump(Par(tree), m), running) ==>
            ShowsValues(after, tree, ValuesIn(cfg, b, a.Keys + Seen(cfg, b)), running))
  {
    var tree := After(cfg, run).tree;
    ViewerInSync(cfg, run, from, to, start, slices, m);
    WindowClosed(cfg, run, from, to + 1, start, slices, m);
    RepliesLink(Par(tree), m, before.Keys);
    ReplyWidths(cfg, Par(tree), m);
    if Updated(cfg, before, after, Dump(Par(tree), m), running) {
      ReplyShown(cfg, before, after, tree, m, running);
    }
  }
}
