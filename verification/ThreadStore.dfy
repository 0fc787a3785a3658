/** The monitor's store for one profiled thread, updated in place. */
module ThreadStores {
  import opened Wire
  import opened Sums
  import opened Forest
  import opened StoreModel
  import opened TimeSlices
  import Ordering

  ghost function FlagUp(tree: Tree, id: NodeId, flag: bool): Tree {
    map x | x in tree :: if Under(Par(tree), x, id) then tree[x].(running := flag) else tree[x]
  }

  /** `values` with `add` added in the columns that are summed; with `plainOnly`
      the A columns are left alone too. */
  ghost function AddFrom(cfg: Config, values: seq<int>, add: seq<int>, plainOnly: bool): (s: seq<int>)
    requires |values| <= |add| == |cfg.meta|
    ensures |s| == |values|
    ensures forall i :: 0 <= i < |s| ==>
      s[i] == values[i] + if cfg.meta[i].isStatic || (plainOnly && cfg.meta[i].accumulated) then 0 else add[i]
  {
    seq(|values|, i requires 0 <= i < |values| =>
      values[i] + if cfg.meta[i].isStatic || (plainOnly && cfg.meta[i].accumulated) then 0 else add[i])
  }

  ghost predicate PartlyAdded(
    cfg: Config, before: seq<int>, after: seq<int>, add: seq<int>, plainOnly: bool, n: nat)
    requires |before| <= |add| == |cfg.meta|
  {
    && |after| == |before|
    && (forall j :: 0 <= j < |after| && j < n ==> after[j] == AddFrom(cfg, before, add, plainOnly)[j])
    && (forall j :: n <= j < |after| ==> after[j] == before[j])
  }

  /** `after` is `before` except that the slice at `slot` holds `tree`. */
  ghost predicate SliceHolds(after: seq<Slice>, before: seq<Slice>, slot: nat, tree: map<NodeId, SliceNode>) {
    && |after| == |before| && slot < |before|
    && (forall k :: 0 <= k < |after| && k != slot ==> after[k] == before[k])
    && after[slot] == before[slot].(tree := tree)
  }

  ghost function Flushed(cfg: Config, node: Node): Node
    requires |node.temp| == |cfg.meta| && |node.all| <= |cfg.meta|
  {
    node.(all := Absorb(cfg, node.all, node.temp, true),
          callCount := node.callCount + node.tempCount, dirty := false)
  }

  /** `tree` with the nodes of `s` settled as computed from `g`. */
  ghost function Replaced(cfg: Config, g: Tree, todo: set<NodeId>, tree: Tree, s: set<NodeId>): Tree
    requires ValidTree(cfg, g)
  {
    map x | x in tree ::
      if x in g && x in s then (assert ValidNode(cfg, g, x); SettledNode(cfg, g, todo, x)) else tree[x]
  }

  /** A node some of whose children have been cleared. */
  ghost function PartialNode(cfg: Config, g: Tree, todo: set<NodeId>, x: NodeId, done: set<NodeId>): Node
    requires x in g && ValidNode(cfg, g, x)
  {
    var gains := ChildGains(cfg, g, todo, done);
    g[x].(cld := AddFrom(cfg, g[x].cld, gains, false), temp := AddFrom(cfg, g[x].temp, gains, true))
  }

  ghost function PartialSlice(cfg: Config, g: Tree, todo: set<NodeId>, done: set<NodeId>): SliceNode {
    SliceNode(Zeros(|cfg.meta|), ChildGains(cfg, g, todo, done), 0)
  }

  class ThreadStore {
    const cfg: Config
    var current: Tree
    var slices: seq<Slice>
    var startTime: int
    var now: seq<int>
    var running: NodeId

    ghost predicate Valid()
      reads this
    {
      && ValidTree(cfg, current)
      && Quiet(cfg, current)
      && GnidsOk(cfg, current)
      && RunningOk(current, running)
    }

    constructor (cfg: Config)
      ensures Valid() && this.cfg == cfg
      ensures slices == [] && running == 0
      ensures current == map[ROOT := NewNode(cfg, ROOT, 0, 0, 1)]
    {
      this.cfg := cfg;
      current := map[ROOT := NewNode(cfg, ROOT, 0, 0, 1)];
      slices, startTime, now, running := [], 0, [], 0;
    }

    /** Index of the slice for time `t`, created if it lies in the future; -1 if
        it lies before the first slice. */
    method GetTimeSlice(t: int) returns (k: int)
      modifies this`slices, this`startTime
      ensures startTime == if old(slices) == [] then t else old(startTime)
      ensures k == if t < startTime then -1 else t - startTime
      ensures slices == Padded(old(slices), if k < 0 then 0 else k + 1)
      ensures k < |slices|
    {
      if slices == [] {
        startTime := t;
      }
      if t < startTime {
        return -1;
      }
      if t - startTime >= |slices| {
        slices := slices + seq(t - startTime + 1 - |slices|, _ => EMPTY_SLICE);
      }
      k := t - startTime;
    }

    method RemoveTimeSlice()
      modifies this`slices
      ensures slices == []
    {
      slices := [];
    }

    method ClearTempValues(id: NodeId)
      requires id in current && |current[id].temp| == |cfg.meta|
      modifies this`current
      ensures current == old(current)[id := old(current)[id].(temp := Zeros(|cfg.meta|), tempCount := 0)]
    {
      var temp := current[id].temp;
      for i := 0 to |temp|
        invariant |temp| == |cfg.meta|
        invariant forall j :: 0 <= j < i ==> temp[j] == 0
      {
        temp := temp[i := 0];
      }
      assert temp == Zeros(|cfg.meta|);
      current := current[id := current[id].(temp := temp, tempCount := 0)];
    }

    /** Static columns take the previous value unless a record says otherwise. */
    method ClearForInterval(id: NodeId)
      requires id in current && |current[id].temp| == |cfg.meta|
      requires !cfg.single ==> |current[id].all| == |cfg.meta|
      modifies this`current
      ensures current == old(current)[id :=
                old(current)[id].(temp := DefaultTemp(cfg, old(current)[id]), tempCount := 0)]
    {
      ghost var node := current[id];
      ClearTempValues(id);
      var temp := current[id].temp;
      for i := 0 to |cfg.meta|
        invariant |temp| == |cfg.meta|
        invariant forall j :: 0 <= j < i ==> temp[j] == DefaultTemp(cfg, node)[j]
        invariant forall j :: i <= j < |temp| ==> temp[j] == 0
      {
        if cfg.meta[i].isStatic && !cfg.single {
          temp := temp[i := current[id].all[i]];
        }
      }
      assert temp == DefaultTemp(cfg, node);
      current := current[id := current[id].(temp := temp)];
    }

    /** Marks a node and its ancestors, stopping at the first that is dirty already. */
    method MarkNodeDirty(id: NodeId)
      requires ValidTree(cfg, current)
      modifies this`current
      ensures current == MarkUp(cfg, old(current), id)
      decreases id
    {
      if id in current && !current[id].dirty {
        ghost var before := current;
        assert ValidNode(cfg, current, id) && Hangs(Par(current), id);
        current := current[id := current[id].(dirty := true)];
        ClearForInterval(id);
        assert current == before[id := Marked(cfg, before[id])];
        MarkStep(cfg, before, current, id);
        MarkNodeDirty(current[id].parent);
      } else {
        assert current == MarkUp(cfg, current, id);
      }
    }

    method SetRunning(flag: bool)
      requires WellFormed(Par(current))
      modifies this`current
      ensures current == FlagUp(old(current), running, flag)
    {
      var id := running;
      ghost var before, par := current, Par(current);
      while id in current
        invariant id in par ==> Under(par, id, running)
        invariant id !in par ==> id == running || id == 0
        invariant current == FlagBetween(before, running, id, flag)
        decreases id
      {
        FlagStep(before, running, id, flag);
        current := current[id := current[id].(running := flag)];
        id := current[id].parent;
      }
      assert forall x :: x in before ==> !Under(par, x, id);
    }

    /** Adds a cleared child's values to its parent: to the children sums in
        non-static columns, and further up in columns that are neither S nor A. */
    method AddTempToChildren(slot: nat, dest: NodeId, src: NodeId)
      requires dest in current && src in current && slot < |slices| && dest in slices[slot].tree
      requires |current[dest].temp| == |current[src].temp| == |cfg.meta|
      requires |slices[slot].tree[dest].cld| == |cfg.meta|
      requires |current[dest].cld| == Width(cfg, dest)
      modifies this`current, this`slices
      ensures current == old(current)[dest := old(current)[dest].(
                cld := AddFrom(cfg, old(current)[dest].cld, old(current)[src].temp, false),
                temp := AddFrom(cfg, old(current)[dest].temp, old(current)[src].temp, true))]
      ensures var tree := old(slices)[slot].tree;
        SliceHolds(slices, old(slices), slot,
          tree[dest := tree[dest].(cld := AddFrom(cfg, tree[dest].cld, old(current)[src].temp, false))])
    {
      var add := current[src].temp;
      var temp, cld, sliceCld := current[dest].temp, current[dest].cld, slices[slot].tree[dest].cld;
      ghost var temp0, cld0, sliceCld0 := temp, cld, sliceCld;
      for i := 0 to |cfg.meta|
        invariant PartlyAdded(cfg, temp0, temp, add, true, i)
        invariant PartlyAdded(cfg, cld0, cld, add, false, i)
        invariant PartlyAdded(cfg, sliceCld0, sliceCld, add, false, i)
      {
        if !cfg.meta[i].isStatic {
          if cld != [] {
            cld := cld[i := cld[i] + add[i]];
          }
          sliceCld := sliceCld[i := sliceCld[i] + add[i]];
          if !cfg.meta[i].accumulated {
            temp := temp[i := temp[i] + add[i]];
          }
        }
      }
      assert temp == AddFrom(cfg, temp0, add, true);
      assert cld == AddFrom(cfg, cld0, add, false);
      assert sliceCld == AddFrom(cfg, sliceCld0, add, false);
      current := current[dest := current[dest].(cld := cld, temp := temp)];
      var slice := slices[slot];
      slices := slices[slot := slice.(tree := slice.tree[dest := slice.tree[dest].(cld := sliceCld)])];
    }

    /** Moves a node's collected values into its totals and its slice. */
    method FlushTemp(slot: nat, id: NodeId)
      requires id in current && slot < |slices| && id in slices[slot].tree
      requires |current[id].temp| == |cfg.meta| && |current[id].all| == Width(cfg, id)
      requires slices[slot].tree[id].all == Zeros(|cfg.meta|)
      modifies this`current, this`slices
      ensures current == old(current)[id := Flushed(cfg, old(current)[id])]
      ensures var tree := old(slices)[slot].tree;
        SliceHolds(slices, old(slices), slot,
          tree[id := tree[id].(all := old(current)[id].temp, callCount := old(current)[id].tempCount)])
    {
      var node, temp := current[id], current[id].temp;
      var all, sliceAll := node.all, slices[slot].tree[id].all;
      for i := 0 to |cfg.meta|
        invariant |all| == |node.all| && |sliceAll| == |cfg.meta|
        invariant forall j :: 0 <= j < i && j < |all| ==>
          all[j] == if cfg.meta[j].isStatic then temp[j] else node.all[j] + temp[j]
        invariant forall j :: i <= j < |all| ==> all[j] == node.all[j]
        invariant forall j :: 0 <= j < i ==> sliceAll[j] == temp[j]
        invariant forall j :: i <= j < |cfg.meta| ==> sliceAll[j] == 0
      {
        // each slice node is filled at most once
        assert sliceAll[i] == 0;
        if cfg.meta[i].isStatic {
          if all != [] {
            all := all[i := temp[i]];
          }
          sliceAll := sliceAll[i := temp[i]];
        } else {
          if all != [] {
            all := all[i := all[i] + temp[i]];
          }
          sliceAll := sliceAll[i := sliceAll[i] + temp[i]];
        }
      }
      assert sliceAll == temp;
      assert all == Absorb(cfg, node.all, temp, true);
      current := current[id := node.(all := all, callCount := node.tempCount + node.callCount, dirty := false)];
      var slice := slices[slot];
      slices := slices[slot := slice.(tree :=
        slice.tree[id := slice.tree[id].(all := sliceAll, callCount := node.tempCount)])];
    }

    /** Clears the dirty part of a subtree, children first, but nothing below an
        attribute node. `g` is the tree as it was before clearing began, and
        `todo` what clearing from the root gets to. */
    method ClearDirtyNode(id: NodeId, slot: nat, ghost g: Tree, ghost todo: set<NodeId>) returns (cleared: bool)
      requires ValidTree(cfg, g) && UpClosed(Par(g), todo) && Clearing(cfg, g, todo)
      requires slot < |slices| && (id in current ==> id in g) && (id in g ==> Entered(cfg, g, todo, id))
      requires forall x :: x in Subtree(Par(g), id) ==>
                 x in current && current[x] == g[x] && x !in slices[slot].tree
      modifies this`current, this`slices
      ensures cleared == (id in g && id in todo)
      ensures current == Replaced(cfg, g, todo, old(current), Subtree(Par(g), id))
      ensures SliceHolds(slices, old(slices), slot,
                         old(slices)[slot].tree + SettledSlices(cfg, g, todo, Subtree(Par(g), id)))
      decreases Subtree(Par(g), id), 2
    {
      if id in g {
        assert Under(Par(g), id, id) && ClearedAt(cfg, g, todo, id);
      }
      if id !in current || !current[id].dirty {
        NothingToClear(cfg, g, todo, current, id);
        PlusNothing(slices[slot].tree);
        return false;
      }
      ghost var tree0, slices0 := current, slices;
      assert ValidNode(cfg, g, id) && id in Subtree(Par(g), id);
      ClearChildren(id, slot, g, todo);
      AllDoneTree(cfg, g, todo, tree0, id);
      AllDoneSlice(cfg, g, todo, slices0[slot].tree, id);
      FlushTemp(slot, id);
      return true;
    }

    /** The loops over the children, in whatever order the set gives them: first
        the ordinary ones, then the attribute nodes among them. An attribute
        node's own children are left alone: it looks for attribute nodes of the
        same name among its siblings' children, of which none are known while
        attribute nodes are off. */
    method ClearChildren(id: NodeId, slot: nat, ghost g: Tree, ghost todo: set<NodeId>)
      requires ValidTree(cfg, g) && UpClosed(Par(g), todo) && Clearing(cfg, g, todo) && id in g && id in todo
      requires slot < |slices|
      requires forall x :: x in Subtree(Par(g), id) ==>
                 x in current && current[x] == g[x] && x !in slices[slot].tree
      requires id in current && current[id] == g[id]
      modifies this`current, this`slices
      ensures current == TreeSoFar(cfg, g, todo, old(current), id, g[id].children)
      ensures SliceHolds(slices, old(slices), slot,
                         SliceSoFar(cfg, g, todo, old(slices)[slot].tree, id, g[id].children))
      decreases Subtree(Par(g), id), 1
    {
      ghost var tree0, base := current, slices[slot].tree;
      assert ValidNode(cfg, g, id);
      var slice := slices[slot];
      slices := slices[slot := slice.(tree :=
        slice.tree[id := SliceNode(Zeros(|cfg.meta|), Zeros(|cfg.meta|), 0)])];
      NoneDone(cfg, g, todo, tree0, id);
      FirstSlice(cfg, g, todo, base, id);
      if IsAttr(cfg, id, current[id].name) {
        NothingInside(cfg, g, todo, tree0, base, id);
        return;
      }
      var attrs := ClearOrdinary(id, slot, g, todo, tree0, base);
      ClearAttributes(id, slot, attrs, g, todo, tree0, base);
    }

    /** Clears the attribute nodes among the children, the others being done. */
    method ClearAttributes(
      id: NodeId, slot: nat, given: set<NodeId>, ghost g: Tree, ghost todo: set<NodeId>, ghost tree0: Tree,
      ghost base: SliceTree)
      requires ValidTree(cfg, g) && UpClosed(Par(g), todo) && Clearing(cfg, g, todo) && id in g && id in todo
      requires ValidNode(cfg, g, id) && !IsAttr(cfg, id, g[id].name)
      requires forall x :: x in Subtree(Par(g), id) ==> x in tree0 && tree0[x] == g[x] && x !in base
      requires id in tree0 && given <= g[id].children && AllAttrs(cfg, g, given)
      requires current == TreeSoFar(cfg, g, todo, tree0, id, g[id].children - given)
      requires slot < |slices|
      requires slices[slot].tree == SliceSoFar(cfg, g, todo, base, id, g[id].children - given)
      modifies this`current, this`slices
      ensures current == TreeSoFar(cfg, g, todo, tree0, id, g[id].children)
      ensures SliceHolds(slices, old(slices), slot, SliceSoFar(cfg, g, todo, base, id, g[id].children))
      decreases Subtree(Par(g), id), 1, 0
    {
      var attrs := given;
      ghost var kids := g[id].children;
      while attrs != {}
        invariant attrs <= kids && AllAttrs(cfg, g, attrs)
        invariant current == TreeSoFar(cfg, g, todo, tree0, id, kids - attrs)
        invariant SliceHolds(slices, old(slices), slot, SliceSoFar(cfg, g, todo, base, id, kids - attrs))
        decreases attrs
      {
        var c :| c in attrs;
        ghost var done := kids - attrs;
        ClearAttribute(id, c, slot, g, todo, tree0, base, done);
        OneLess(kids, attrs, c);
        attrs := attrs - {c};
      }
      assert kids - attrs == kids;
    }

    /** Clears the ordinary children, and returns the others. */
    method ClearOrdinary(
      id: NodeId, slot: nat, ghost g: Tree, ghost todo: set<NodeId>, ghost tree0: Tree, ghost base: SliceTree)
      returns (attrs: set<NodeId>)
      requires ValidTree(cfg, g) && UpClosed(Par(g), todo) && Clearing(cfg, g, todo) && id in g && id in todo
      requires ValidNode(cfg, g, id) && !IsAttr(cfg, id, g[id].name)
      requires forall x :: x in Subtree(Par(g), id) ==> x in tree0 && tree0[x] == g[x] && x !in base
      requires id in tree0 && slot < |slices| && id in current && current[id].children == g[id].children
      requires current == TreeSoFar(cfg, g, todo, tree0, id, {})
      requires slices[slot].tree == SliceSoFar(cfg, g, todo, base, id, {})
      modifies this`current, this`slices
      ensures attrs <= g[id].children && AllAttrs(cfg, g, attrs)
      ensures current == TreeSoFar(cfg, g, todo, tree0, id, g[id].children - attrs)
      ensures SliceHolds(slices, old(slices), slot, SliceSoFar(cfg, g, todo, base, id, g[id].children - attrs))
      decreases Subtree(Par(g), id), 1, 0
    {
      var rest := current[id].children;
      ghost var kids := g[id].children;
      attrs := {};
      assert kids - rest - attrs == {};
      while rest != {}
        invariant rest <= kids && attrs <= kids - rest
        invariant AllAttrs(cfg, g, attrs)
        invariant current == TreeSoFar(cfg, g, todo, tree0, id, kids - rest - attrs)
        invariant SliceHolds(slices, old(slices), slot, SliceSoFar(cfg, g, todo, base, id, kids - rest - attrs))
        decreases rest
      {
        var c :| c in rest;
        ghost var done := kids - rest - attrs;
        Untouched(cfg, g, todo, tree0, base, id, done, c);
        NotUnder(Par(g), id, c);
        TakenOut(kids, rest, attrs, c);
        if IsAttr(cfg, c, current[c].name) {
          attrs := attrs + {c};
        } else {
          ClearChild(id, c, slot, g, todo, tree0, base, done);
        }
        rest := rest - {c};
      }
      assert kids - rest - attrs == kids - attrs;
    }

    /** Clears one child, and adds what it collected to its parent. */
    method ClearChild(
      id: NodeId, c: NodeId, slot: nat, ghost g: Tree, ghost todo: set<NodeId>, ghost tree0: Tree,
      ghost base: SliceTree, ghost done: set<NodeId>)
      requires ValidTree(cfg, g) && UpClosed(Par(g), todo) && Clearing(cfg, g, todo)
      requires id in g && id in todo && ValidNode(cfg, g, id) && !IsAttr(cfg, id, g[id].name)
      requires done <= g[id].children && c in g[id].children && c !in done
      requires forall x :: x in Subtree(Par(g), id) ==> x in tree0 && tree0[x] == g[x] && x !in base
      requires id in tree0
      requires current == TreeSoFar(cfg, g, todo, tree0, id, done)
      requires slot < |slices| && slices[slot].tree == SliceSoFar(cfg, g, todo, base, id, done)
      modifies this`current, this`slices
      ensures current == TreeSoFar(cfg, g, todo, tree0, id, done + {c})
      ensures SliceHolds(slices, old(slices), slot, SliceSoFar(cfg, g, todo, base, id, done + {c}))
      decreases Subtree(Par(g), id), 0
    {
      Untouched(cfg, g, todo, tree0, base, id, done, c);
      TreeStep(cfg, g, todo, tree0, id, done, c);
      SliceStep(cfg, g, todo, base, id, done, c);
      var cleared := ClearDirtyNode(c, slot, g, todo);
      if cleared {
        AddTempToChildren(slot, id, c);
      }
    }

    /** Adds an attribute node's values to its parent, then clears it. */
    method ClearAttribute(
      id: NodeId, c: NodeId, slot: nat, ghost g: Tree, ghost todo: set<NodeId>, ghost tree0: Tree,
      ghost base: SliceTree, ghost done: set<NodeId>)
      requires ValidTree(cfg, g) && UpClosed(Par(g), todo) && Clearing(cfg, g, todo)
      requires id in g && id in todo && ValidNode(cfg, g, id) && !IsAttr(cfg, id, g[id].name)
      requires done <= g[id].children && c in g[id].children && c !in done
      requires c in g && IsAttr(cfg, c, g[c].name)
      requires forall x :: x in Subtree(Par(g), id) ==> x in tree0 && tree0[x] == g[x] && x !in base
      requires id in tree0
      requires current == TreeSoFar(cfg, g, todo, tree0, id, done)
      requires slot < |slices| && slices[slot].tree == SliceSoFar(cfg, g, todo, base, id, done)
      modifies this`current, this`slices
      ensures current == TreeSoFar(cfg, g, todo, tree0, id, done + {c})
      ensures SliceHolds(slices, old(slices), slot, SliceSoFar(cfg, g, todo, base, id, done + {c}))
      decreases Subtree(Par(g), id), 0
    {
      Untouched(cfg, g, todo, tree0, base, id, done, c);
      NotUnder(Par(g), id, c);
      assert ClearedAt(cfg, g, todo, c) && current[c] == g[c];
      if current[c].dirty {
        AttributeTreeStep(cfg, g, todo, tree0, id, done, c);
        AttributeSliceStep(cfg, g, todo, base, id, done, c);
        AddTempToChildren(slot, id, c);
        var _ := ClearDirtyNode(c, slot, g, todo);
      } else {
        SkipStep(cfg, g, todo, tree0, base, id, done, c);
      }
    }

    /** Gives a node its global id; its ancestors have theirs already. */
    method TouchGNID(id: NodeId) returns (gnid: nat)
      requires WellFormed(Par(current)) && id in current
      requires forall x :: x in current && Under(Par(current), x, id) && x != id ==> GnidOk(cfg, current, x)
      requires id == ROOT || current[id].gnid != 0 ==> GnidOk(cfg, current, id)
      modifies this`current
      ensures current == old(current)[id := old(current)[id].(gnid := gnid)]
      ensures GnidOk(cfg, current, id)
      decreases id
    {
      if current[id].gnid != 0 {
        return current[id].gnid;
      }
      ghost var par := Par(current);
      var up := current[id].parent;
      assert Hangs(par, id);
      UnderParent(par, up, id);
      forall x | Under(par, x, up)
        ensures Under(par, x, id) && x != id
      {
        UnderParent(par, x, id);
      }
      assert GnidOk(cfg, current, up);
      ghost var before := current;
      var parentGnid := TouchGNID(up);
      assert Hangs(par, up) && GnidOk(cfg, before, up);
      assert current == before;
      gnid := cfg.hash(PathKey(parentGnid, cfg.nameOf(current[id].name)));
      current := current[id := current[id].(gnid := gnid)];
    }

    /** Makes a node for a record whose node is not known yet. */
    method AddFor(r: Record)
      requires ValidTree(cfg, current) && GnidsOk(cfg, current)
      requires r.id !in current && r.parent in current && r.parent < r.id
      modifies this`current
      ensures current == AddNode(cfg, old(current), r)
    {
      ghost var before := current;
      current := current[r.id := NewNode(cfg, r.id, r.parent, r.name, 0)];
      NewLeaf(cfg, before, current, r.id);
      var gnid := TouchGNID(r.id);
      var up := current[r.parent];
      current := current[r.parent := up.(children := up.children + {r.id})];
    }

    /** Takes over the now-info: the running flags move, and the running node
        becomes dirty if it is known already. */
    method StoreNowInfo(ni: NowInfo)
      requires Valid()
      modifies this`current, this`running, this`now
      ensures running == ni.running && now == ni.values
      ensures current == Staged(cfg, old(current), ni.running, [])
    {
      ghost var tree0 := current;
      SetRunning(false);
      running, now := ni.running, ni.values;
      StagedStart(cfg, tree0, current, old(running), running);
      MarkNodeDirty(running);
      SetRunning(true);
    }

    /** Adds, marks and fills the node of each record in turn. */
    method StoreRecords(recs: seq<Record>, ghost tree0: Tree)
      requires ValidTree(cfg, tree0) && Quiet(cfg, tree0) && GnidsOk(cfg, tree0)
      requires Storable(tree0.Keys, recs) && RecordWidths(cfg, recs)
      requires current == Staged(cfg, tree0, running, [])
      modifies this`current
      ensures current == Staged(cfg, tree0, running, recs)
    {
      assert recs[..0] == [];
      var k := 0;
      while k < |recs|
        invariant 0 <= k <= |recs|
        invariant Storable(tree0.Keys, recs[..k])
        invariant current == Staged(cfg, tree0, running, recs[..k])
      {
        StepReady(cfg, tree0, running, recs, k);
        StoreRecord(recs[k]);
        k := k + 1;
      }
      assert recs[..k] == recs;
    }

    method StoreRecord(r: Record)
      requires ValidTree(cfg, current) && GnidsOk(cfg, current)
      requires r.id in current || (r.parent in current && r.parent < r.id)
      requires ValidTree(cfg, AddNode(cfg, current, r)) && r.id in AddNode(cfg, current, r)
      modifies this`current
      ensures current == Fill(cfg, AddNode(cfg, old(current), r), r)
    {
      if r.id !in current {
        AddFor(r);
      }
      ghost var g := current;
      MarkNodeDirty(r.id);
      FillIsMark(cfg, g, r);
      current := current[r.id := current[r.id].(temp := r.values, tempCount := r.callCount)];
    }

    method ClearAll(slot: nat, ghost tree: Tree, ghost slice: SliceTree)
      requires SettlesAs(cfg, current, tree, slice, running)
      requires slot < |slices| && slices[slot].tree == map[]
      modifies this`current, this`slices
      ensures current == tree && SliceHolds(slices, old(slices), slot, slice)
    {
      ghost var g, todo := current, Collected(cfg, current);
      CollectedIsCleared(cfg, g);
      WholeTree(cfg, g, todo);
      var _ := ClearDirtyNode(ROOT, slot, g, todo);
      assert map[] + SettledSlices(cfg, g, todo, g.Keys) == slice;
    }

    /** Clears everything dirty that clearing gets to into the slice for time `t`. */
    method CloseInterval(t: int, ghost tree: Tree, ghost slice: SliceTree)
      requires SettlesAs(cfg, current, tree, slice, running)
      requires Room(slices, startTime, t)
      modifies this`current, this`slices, this`startTime
      ensures Valid() && current == tree
      ensures startTime == if old(slices) == [] then t else old(startTime)
      ensures 0 <= t - startTime
      ensures slices == PutSlice(old(slices), t - startTime, Slice(slice, now, running))
    {
      var slot := GetTimeSlice(t);
      slices := slices[slot := slices[slot].(now := now, running := running)];
      ghost var before := slices;
      ClearAll(slot, tree, slice);
      assert slices == before[slot := Slice(slice, now, running)];
    }

    /** Takes in a now-info and the records that came with it. */
    method StageBuffer(recs: seq<Record>, ni: NowInfo, ghost tree: Tree, ghost slice: SliceTree)
      requires Valid() && Storable(current.Keys, recs) && RecordWidths(cfg, recs)
      requires tree == StoreTree(cfg, current, ni.running, recs)
      requires slice == StoreSlice(cfg, current, ni.running, recs)
      modifies this`current, this`running, this`now
      ensures running == ni.running && now == ni.values
      ensures SettlesAs(cfg, current, tree, slice, running)
    {
      ghost var tree0 := current;
      StoreNowInfo(ni);
      StoreRecords(recs, tree0);
      StagedReady(cfg, tree0, running, recs);
      StoreOutcome(cfg, tree0, running, recs, current);
    }

    /** Stores one performance buffer and the now-info that came with it. */
    method Store(t: int, recs: seq<Record>, ni: NowInfo)
      requires Valid()
      requires Storable(current.Keys, recs) && RecordWidths(cfg, recs)
      requires Room(slices, startTime, t)
      modifies this
      ensures Valid()
      ensures running == ni.running && now == ni.values
      ensures current == StoreTree(cfg, old(current), ni.running, recs)
      ensures startTime == if old(slices) == [] then t else old(startTime)
      ensures 0 <= t - startTime
      ensures slices == PutSlice(old(slices), t - startTime,
                Slice(StoreSlice(cfg, old(current), ni.running, recs), ni.values, ni.running))
    {
      ghost var tree, slice := StoreTree(cfg, current, ni.running, recs), StoreSlice(cfg, current, ni.running, recs);
      StageBuffer(recs, ni, tree, slice);
      CloseInterval(t, tree, slice);
    }

    method Accumulate(a: SliceNode, b: SliceNode) returns (r: SliceNode)
      requires NodeWidths(cfg, a) && NodeWidths(cfg, b)
      ensures r == TimeSlices.Accumulate(cfg, a, b)
    {
      var all, cld := a.all, a.cld;
      for i := 0 to |cfg.meta|
        invariant |all| == |cld| == |cfg.meta|
        invariant forall j :: 0 <= j < i ==> all[j] == Combine(cfg, a.all, b.all)[j]
        invariant forall j :: 0 <= j < i ==> cld[j] == Combine(cfg, a.cld, b.cld)[j]
        invariant forall j :: i <= j < |cfg.meta| ==> all[j] == a.all[j] && cld[j] == a.cld[j]
      {
        if cfg.meta[i].isStatic {
          all, cld := all[i := b.all[i]], cld[i := b.cld[i]];
        } else {
          all, cld := all[i := all[i] + b.all[i]], cld[i := cld[i] + b.cld[i]];
        }
      }
      assert all == Combine(cfg, a.all, b.all) && cld == Combine(cfg, a.cld, b.cld);
      r := SliceNode(all, cld, a.callCount + b.callCount);
    }

    /** Accumulates every node of one slice. */
    method MergeSlice(integrated: SliceTree, slice: SliceTree) returns (r: SliceTree)
      requires SliceWidths(cfg, integrated) && SliceWidths(cfg, slice)
      ensures r == Onto(cfg, integrated, slice)
    {
      r := integrated;
      var rest := slice.Keys;
      assert integrated == Onto(cfg, integrated, Only(slice, slice.Keys - rest));
      while rest != {}
        invariant rest <= slice.Keys
        invariant SliceWidths(cfg, Only(slice, slice.Keys - rest))
        invariant r == Onto(cfg, integrated, Only(slice, slice.Keys - rest))
        decreases rest
      {
        var x := Ordering.First(rest);
        var before := if x in r then r[x] else ZeroNode(cfg);
        var node := Accumulate(before, slice[x]);
        OntoNext(cfg, integrated, slice, slice.Keys - rest, x);
        assert slice.Keys - (rest - {x}) == slice.Keys - rest + {x};
        r := r[x := node];
        rest := rest - {x};
      }
      assert Only(slice, slice.Keys - rest) == slice;
    }

    /** Merges in the slice for time `t`, unless it lies before the first one. */
    method MergeAt(integrated: SliceTree, t: int, last: int) returns (r: SliceTree, next: int)
      requires AllWidths(cfg, slices) && SliceWidths(cfg, integrated)
      modifies this`slices, this`startTime
      ensures startTime == if old(slices) == [] then t else old(startTime)
      ensures slices == Padded(old(slices), Upto(startTime, t + 1)) && AllWidths(cfg, slices)
      ensures t >= startTime ==> t - startTime < |slices|
      ensures r == if t < startTime then integrated else Onto(cfg, integrated, slices[t - startTime].tree)
      ensures next == if t < startTime then last else t - startTime
    {
      MergePadded(cfg, slices, Upto(if slices == [] then t else startTime, t + 1));
      var k := GetTimeSlice(t);
      r, next := integrated, last;
      if k >= 0 {
        r := MergeSlice(integrated, slices[k].tree);
        next := k;
      }
    }

    /** Merges the slices for the times `from` to `to`; those before the first
        slice contribute nothing, those beyond the last are made on the way.
        `last` is the index of the last one, -1 if there is none. */
    method MergeTimeSlice(from: int, to: int) returns (integrated: SliceTree, last: int)
      requires AllWidths(cfg, slices)
      modifies this`slices, this`startTime
      ensures startTime == if old(slices) == [] && from <= to then from else old(startTime)
      ensures AllWidths(cfg, slices)
      ensures from > to ==> slices == old(slices) && integrated == map[]
      ensures from <= to ==> MergedTo(cfg, old(slices), startTime, from, to + 1, slices, integrated)
      ensures last == (if from <= to && startTime <= to then to - startTime else -1) < |slices|
    {
      integrated, last := map[], -1;
      if from > to {
        return;
      }
      ghost var slices0, start0 := slices, startTime;
      var t := from;
      while t <= to
        invariant from <= t <= to + 1
        invariant Merging(cfg, slices0, start0, from, t, slices, startTime, integrated, last)
      {
        ghost var before, start, m, prev := slices, startTime, integrated, last;
        integrated, last := MergeAt(integrated, t, last);
        MergingStep(cfg, slices0, start0, from, t, before, start, m, prev, slices, startTime, integrated, last);
        t := t + 1;
      }
    }

    /** The now values of the first slice there is between the time before the
        window and its end. */
    method GetStartProfileValue(from: int, to: int) returns (r: Option<seq<int>>)
      requires AllWidths(cfg, slices)
      modifies this`slices, this`startTime
      ensures startTime == if old(slices) == [] && from - 1 <= to then from - 1 else old(startTime)
      ensures AllWidths(cfg, slices)
      ensures var first := if from - 1 < startTime then startTime else from - 1;
        if from - 1 <= to && first <= to then
          && slices == Padded(old(slices), first - startTime + 1) && first - startTime < |slices|
          && r == Some(slices[first - startTime].now)
        else slices == old(slices) && r == None
    {
      var t, k := from - 1, -1;
      ghost var slices0, start0 := slices, startTime;
      while t <= to && k < 0
        invariant from - 1 <= t && (t == from - 1 || t <= to + 1)
        invariant Searched(slices0, start0, from - 1, t, k, slices, startTime)
        decreases if k < 0 then to + 1 - t else 0
      {
        k := GetTimeSlice(t);
        t := t + 1;
      }
      if k >= 0 {
        MergePadded(cfg, slices0, k + 1);
        return Some(slices[k].now);
      }
      r := None;
    }

    /** The reply with the window for the times `p1` to `p2`, where 0 stands for now. */
    method DumpWindow(p1: int, p2: int, timeNumber: int) returns (r: WindowReply)
      requires AllWidths(cfg, slices)
      modifies this`slices, this`startTime
      ensures AllWidths(cfg, slices)
      ensures var to := if p2 == 0 then timeNumber else p2;
        p1 <= to ==>
          && startTime == (if old(slices) == [] then p1 else old(startTime))
          && MergedTo(cfg, old(slices), startTime, p1, to + 1, slices, r.nodes)
          && Headed(slices, startTime, p1, to, r)
      ensures var to := if p2 == 0 then timeNumber else p2;
        p1 > to ==> r == WindowReply(map[], None, None, None)
    {
      var to := if p2 == 0 then timeNumber else p2;
      var nodes, last := MergeTimeSlice(p1, to);
      ghost var merged := slices;
      var start := GetStartProfileValue(p1, to);
      if last < 0 {
        return WindowReply(nodes, None, None, None);
      }
      assert slices == merged;
      r := WindowReply(nodes, Some(slices[last].now), start, Some(slices[last].running));
    }

    /** Compares the tree with the merge of all slices up to now: `errors` are
        the nodes that differ, `missing` those looked up in vain. */
    method CheckAllTimeSlice(t: int) returns (errors: set<NodeId>, missing: set<NodeId>, ghost merged: SliceTree)
      requires AllWidths(cfg, slices) && t >= 0
      modifies this`slices, this`startTime
      ensures startTime == if old(slices) == [] then 0 else old(startTime)
      ensures MergedTo(cfg, old(slices), startTime, 0, t + 1, slices, merged)
      ensures forall x :: x in errors <==>
        x in current && x in merged && (current[x].all != merged[x].all || current[x].cld != merged[x].cld)
      ensures missing == current.Keys - merged.Keys
    {
      var integrated, _ := MergeTimeSlice(0, t);
      merged := integrated;
      errors, missing := {}, {};
      var rest := current.Keys;
      while rest != {}
        invariant rest <= current.Keys
        invariant forall x :: x in errors <==>
          x in current && x !in rest && x in merged
          && (current[x].all != merged[x].all || current[x].cld != merged[x].cld)
        invariant missing == current.Keys - merged.Keys - rest
        decreases rest
        modifies {}
      {
        var x := Ordering.First(rest);
        if x !in integrated {
          missing := missing + {x};
        } else if current[x].all != integrated[x].all || current[x].cld != integrated[x].cld {
          errors := errors + {x};
        }
        rest := rest - {x};
      }
    }
  }

  /** Merging has got up to time `t`. */
  ghost predicate Merging(
    cfg: Config, slices0: seq<Slice>, start0: int, from: int, t: int,
    slices: seq<Slice>, start: int, m: SliceTree, last: int)
  {
    && AllWidths(cfg, slices) && SliceWidths(cfg, m) && LastBefore(start, from, t, last, |slices|)
    && MergedSoFar(cfg, slices0, if slices0 == [] then from else start0, from, t, slices, m)
    && if t == from then start == start0 else slices != [] && start == if slices0 == [] then from else start0
  }

  lemma MergingStep(
    cfg: Config, slices0: seq<Slice>, start0: int, from: int, t: int,
    before: seq<Slice>, start: int, m: SliceTree, prev: int,
    slices: seq<Slice>, started: int, n: SliceTree, last: int)
    requires Merging(cfg, slices0, start0, from, t, before, start, m, prev) && from <= t
    requires started == (if before == [] then t else start) && AllWidths(cfg, slices)
    requires slices == Padded(before, Upto(started, t + 1))
    requires t >= started ==> t - started < |slices|
    requires n == if t < started then m else Onto(cfg, m, slices[t - started].tree)
    requires last == if t < started then prev else t - started
    ensures Merging(cfg, slices0, start0, from, t + 1, slices, started, n, last)
  {
    MergedStep(cfg, slices0, started, from, t, before, m, slices, n);
  }

  /** Index of the last slice for a time from `from` on and before `t`. */
  ghost predicate LastBefore(start: int, from: int, t: int, last: int, n: nat) {
    last == (if t > from && start < t then t - 1 - start else -1) && last < n
  }

  /** Looking for the first slice from time `from` on: `k` is its index if it has
      been found, at the time before `t`. */
  ghost predicate Searched(
    slices0: seq<Slice>, start0: int, from: int, t: int, k: int, slices: seq<Slice>, start: int)
  {
    if k < 0 then
      slices == slices0 && start == start0 && (t > from ==> slices0 != [] && t <= start0)
    else
      && start == (if slices0 == [] then from else start0)
      && t - 1 == (if from < start then start else from)
      && k == t - 1 - start && k < |slices| && slices == Padded(slices0, k + 1)
  }

  /** A window's nodes, the readings at its end and before its beginning, and the
      node that ran last; without readings if there is no slice. */
  datatype WindowReply = WindowReply(
    nodes: SliceTree, now: Option<seq<int>>, start: Option<seq<int>>, running: Option<NodeId>)

  /** The readings are those of the window's last slice and of the slice before
      the window, or of the first slice when there is none before it. */
  ghost predicate Headed(slices: seq<Slice>, start: int, from: int, to: int, r: WindowReply) {
    if start <= to then
      && from <= to && to - start < |slices|
      && r.now == Some(slices[to - start].now) && r.running == Some(slices[to - start].running)
      && r.start == Some(slices[if from - 1 < start then 0 else from - 1 - start].now)
    else r.now == None && r.start == None && r.running == None
  }

  ghost predicate MergedSoFar(
    cfg: Config, slices0: seq<Slice>, start: int, from: int, t: int, slices: seq<Slice>, m: SliceTree)
  {
    if t == from then slices == slices0 && m == map[] else MergedTo(cfg, slices0, start, from, t, slices, m)
  }

  lemma MergedStep(
    cfg: Config, slices0: seq<Slice>, start: int, from: int, t: int,
    before: seq<Slice>, m: SliceTree, slices: seq<Slice>, n: SliceTree)
    requires MergedSoFar(cfg, slices0, start, from, t, before, m)
    requires from <= t && AllWidths(cfg, slices) && SliceWidths(cfg, m)
    requires slices == Padded(before, Upto(start, t + 1))
    requires n == if t < start then m else Onto(cfg, m, slices[t - start].tree)
    ensures MergedTo(cfg, slices0, start, from, t + 1, slices, n)
  {
    if t == from {
      MergedFirst(cfg, slices0, start, t, slices, n);
    } else {
      MergedNext(cfg, slices0, start, from, t, before, m, slices, n);
    }
  }

  lemma MergedFirst(cfg: Config, slices0: seq<Slice>, start: int, from: int, slices: seq<Slice>, m: SliceTree)
    requires AllWidths(cfg, slices) && slices == Padded(slices0, Upto(start, from + 1))
    requires m == if from < start then map[] else Onto(cfg, map[], slices[from - start].tree)
    ensures MergedTo(cfg, slices0, start, from, from + 1, slices, m)
  {
    if from >= start {
      MergeNext(cfg, slices, from - start, from - start);
    }
  }

  lemma MergedNext(
    cfg: Config, slices0: seq<Slice>, start: int, from: int, t: int,
    before: seq<Slice>, m: SliceTree, slices: seq<Slice>, n: SliceTree)
    requires MergedTo(cfg, slices0, start, from, t, before, m) && from < t && AllWidths(cfg, slices)
    requires slices == Padded(before, Upto(start, t + 1))
    requires n == if t < start then m else Onto(cfg, m, slices[t - start].tree)
    ensures MergedTo(cfg, slices0, start, from, t + 1, slices, n)
  {
    var lo, k, hi := Upto(start, from), Upto(start, t), Upto(start, t + 1);
    if t >= start {
      NextMerged(cfg, slices0, before, slices, lo, k);
    } else {
      assert slices == before;
    }
    MergedUpto(cfg, slices0, start, from, t + 1, slices, n, lo, hi);
  }

  lemma MergedUpto(
    cfg: Config, slices0: seq<Slice>, start: int, from: int, t: int, slices: seq<Slice>, m: SliceTree, lo: nat, hi: nat)
    requires AllWidths(cfg, slices) && lo == Upto(start, from) && hi == Upto(start, t) && lo <= hi <= |slices|
    requires slices == Padded(slices0, hi) && m == Merge(cfg, slices[lo..hi])
    ensures MergedTo(cfg, slices0, start, from, t, slices, m)
  {
  }

  lemma NextMerged(cfg: Config, slices0: seq<Slice>, before: seq<Slice>, slices: seq<Slice>, lo: nat, k: nat)
    requires AllWidths(cfg, before) && AllWidths(cfg, slices) && lo <= k <= |before|
    requires before == Padded(slices0, k) && slices == Padded(before, k + 1)
    ensures slices == Padded(slices0, k + 1) && k < |slices|
    ensures SliceWidths(cfg, slices[k].tree)
    ensures Merge(cfg, slices[lo..k + 1]) == Onto(cfg, Merge(cfg, before[lo..k]), slices[k].tree)
  {
    PaddedTwice(slices0, k, k + 1);
    PaddedKeeps(before, k + 1, k);
    ExtendMerge(cfg, before, slices, lo, k);
  }

  lemma PaddedKeeps(slices: seq<Slice>, n: nat, k: nat)
    requires k <= |slices| && k < n
    ensures Padded(slices, n)[..k] == slices[..k]
  {
  }

  lemma ExtendMerge(cfg: Config, before: seq<Slice>, slices: seq<Slice>, lo: nat, k: nat)
    requires AllWidths(cfg, before) && AllWidths(cfg, slices)
    requires lo <= k < |slices| && k <= |before| && slices[..k] == before[..k]
    ensures SliceWidths(cfg, slices[k].tree)
    ensures Merge(cfg, slices[lo..k + 1]) == Onto(cfg, Merge(cfg, before[lo..k]), slices[k].tree)
  {
    assert slices[lo..k] == slices[..k][lo..] && before[lo..k] == before[..k][lo..];
    MergeNext(cfg, slices, lo, k);
  }

  lemma PaddedTwice(slices: seq<Slice>, a: nat, b: nat)
    requires a <= b
    ensures Padded(Padded(slices, a), b) == Padded(slices, b)
  {
  }

  lemma MergeNext(cfg: Config, slices: seq<Slice>, lo: nat, k: nat)
    requires AllWidths(cfg, slices) && lo <= k < |slices|
    ensures SliceWidths(cfg, slices[k].tree)
    ensures Merge(cfg, slices[lo..k + 1]) == Onto(cfg, Merge(cfg, slices[lo..k]), slices[k].tree)
  {
    var w := slices[lo..k + 1];
    assert w[..|w| - 1] == slices[lo..k] && w[|w| - 1] == slices[k];
  }

  /** The part of a slice with the given nodes. */
  function Only(slice: SliceTree, done: set<NodeId>): SliceTree {
    map x | x in slice && x in done :: slice[x]
  }

  lemma OntoNext(cfg: Config, a: SliceTree, slice: SliceTree, done: set<NodeId>, x: NodeId)
    requires SliceWidths(cfg, a) && SliceWidths(cfg, slice) && x in slice && x !in done
    ensures SliceWidths(cfg, Only(slice, done)) && SliceWidths(cfg, Only(slice, done + {x}))
    ensures NodeWidths(cfg, slice[x])
    ensures var r := Onto(cfg, a, Only(slice, done));
      && NodeWidths(cfg, NodeOr(cfg, r, x))
      && Onto(cfg, a, Only(slice, done + {x})) == r[x := TimeSlices.Accumulate(cfg, NodeOr(cfg, r, x), slice[x])]
  {
    assert Only(slice, done + {x}) == Only(slice, done)[x := slice[x]];
    OntoOneMore(cfg, a, Only(slice, done), x, slice[x]);
  }

  lemma OntoOneMore(cfg: Config, a: SliceTree, b: SliceTree, x: NodeId, node: SliceNode)
    requires SliceWidths(cfg, a) && SliceWidths(cfg, b) && x !in b && NodeWidths(cfg, node)
    ensures var r := Onto(cfg, a, b);
      && NodeWidths(cfg, NodeOr(cfg, r, x))
      && Onto(cfg, a, b[x := node]) == r[x := TimeSlices.Accumulate(cfg, NodeOr(cfg, r, x), node)]
  {
  }

  lemma StoreOutcome(cfg: Config, tree: Tree, run: NodeId, recs: seq<Record>, g: Tree)
    requires ValidTree(cfg, tree) && Quiet(cfg, tree) && GnidsOk(cfg, tree)
    requires Storable(tree.Keys, recs) && RecordWidths(cfg, recs)
    requires g == Staged(cfg, tree, run, recs) && Clearable(cfg, g)
    ensures SettlesAs(cfg, g, StoreTree(cfg, tree, run, recs), StoreSlice(cfg, tree, run, recs), run)
  {
    StoreValid(cfg, tree, run, recs);
  }

  ghost predicate Clearable(cfg: Config, g: Tree) {
    ValidTree(cfg, g) && UpClosed(Par(g), Collected(cfg, g))
  }

  /** The slice for time `t` is there or still to be made, and empty. */
  ghost predicate Room(slices: seq<Slice>, start: int, t: int) {
    slices == [] || (t >= start && EmptyFrom(slices, t - start))
  }

  /** Clearing what a store has staged ends it. */
  ghost predicate SettlesAs(cfg: Config, g: Tree, t: Tree, slice: SliceTree, run: NodeId) {
    && Clearable(cfg, g)
    && t == Settle(cfg, g, Collected(cfg, g))
    && slice == SettledSlices(cfg, g, Collected(cfg, g), g.Keys)
    && ValidTree(cfg, t) && Quiet(cfg, t) && GnidsOk(cfg, t) && RunningOk(t, run)
  }

  /** The flags set while walking from `run` up to just below `id`. */
  ghost function FlagBetween(tree: Tree, run: NodeId, id: NodeId, flag: bool): Tree {
    map x | x in tree ::
      if Under(Par(tree), x, run) && !Under(Par(tree), x, id) then tree[x].(running := flag) else tree[x]
  }

  lemma FlagStep(tree: Tree, run: NodeId, id: NodeId, flag: bool)
    requires WellFormed(Par(tree)) && id in tree && Under(Par(tree), id, run)
    ensures id in FlagBetween(tree, run, id, flag)
    ensures FlagBetween(tree, run, id, flag)[id] == tree[id]
    ensures FlagBetween(tree, run, id, flag)[id := tree[id].(running := flag)]
         == FlagBetween(tree, run, tree[id].parent, flag)
    ensures tree[id].parent < id
    ensures if tree[id].parent in tree then Under(Par(tree), tree[id].parent, run) else tree[id].parent == 0
  {
    var par, up := Par(tree), tree[id].parent;
    var a := FlagBetween(tree, run, id, flag)[id := tree[id].(running := flag)];
    var b := FlagBetween(tree, run, up, flag);
    forall x | x in tree
      ensures a[x] == b[x]
    {
      UnderParent(par, x, id);
    }
    assert a.Keys == b.Keys;
    assert Hangs(par, id);
    if up in par {
      UnderParent(par, up, id);
      UnderTrans(par, up, id, run);
    }
  }

  /** Marking one node and walking on from its parent marks what walking from
      the node does. */
  lemma MarkStep(cfg: Config, tree: Tree, marked: Tree, id: NodeId)
    requires ValidTree(cfg, tree)
    requires id in tree && !tree[id].dirty && marked == tree[id := Marked(cfg, tree[id])]
    ensures ValidTree(cfg, marked)
    ensures MarkUp(cfg, marked, tree[id].parent) == MarkUp(cfg, tree, id)
  {
    var par, up, stop := Par(tree), tree[id].parent, Dirty(tree);
    assert ValidNode(cfg, tree, id);
    SameOutlineValid(cfg, tree, marked);
    assert Dirty(marked) == stop + {id};
    UnderParent(par, id, id);
    forall x | x in tree
      ensures Reach(par, stop, x, id) <==> x == id || Reach(par, stop + {id}, x, up)
    {
      if Reach(par, stop + {id}, x, up) {
        ReachFewer(par, stop, stop + {id}, x, up);
      } else if Reach(par, stop, x, up) {
        var y := ReachMeets(par, stop, stop + {id}, x, up);
        ReachUnder(par, stop, y, up);
      }
    }
    var a, b := MarkUp(cfg, marked, up), MarkUp(cfg, tree, id);
    assert a.Keys == b.Keys;
    forall x | x in tree
      ensures a[x] == b[x]
    {
      if Reach(par, stop + {id}, x, up) {
        ReachUnder(par, stop + {id}, x, up);
      }
    }
    SameMap(a, b);
  }

  /** Clearing enters a node from the root, or from a node it clears that is not
      an attribute node. */
  ghost predicate Entered(cfg: Config, g: Tree, todo: set<NodeId>, x: NodeId)
    requires x in g
  {
    var up := g[x].parent;
    x == ROOT || (up in g && up in todo && !IsAttr(cfg, up, g[up].name))
  }

  ghost predicate ClearedAt(cfg: Config, g: Tree, todo: set<NodeId>, x: NodeId)
    requires x in g
  {
    x in todo <==> g[x].dirty && Entered(cfg, g, todo, x)
  }

  /** `todo` is what clearing from the root gets to. */
  ghost predicate Clearing(cfg: Config, g: Tree, todo: set<NodeId>) {
    forall x {:trigger ClearedAt(cfg, g, todo, x)} :: x in g ==> ClearedAt(cfg, g, todo, x)
  }

  lemma CollectedIsCleared(cfg: Config, g: Tree)
    requires ValidTree(cfg, g) && UpClosed(Par(g), Collected(cfg, g))
    ensures Clearing(cfg, g, Collected(cfg, g))
  {
    var todo, par, cut := Collected(cfg, g), Par(g), Attrs(cfg, g);
    forall x | x in g
      ensures ClearedAt(cfg, g, todo, x)
    {
      assert Hangs(par, x);
      if x in todo {
        assert ClosedAt(par, todo, x);
      }
    }
  }

  lemma NothingToClear(cfg: Config, g: Tree, todo: set<NodeId>, tree: Tree, id: NodeId)
    requires ValidTree(cfg, g) && UpClosed(Par(g), todo)
    requires id in g ==> id !in todo
    requires forall x :: x in Subtree(Par(g), id) ==> x in tree && tree[x] == g[x]
    ensures Replaced(cfg, g, todo, tree, Subtree(Par(g), id)) == tree
    ensures SettledSlices(cfg, g, todo, Subtree(Par(g), id)) == map[]
  {
    if id in g {
      NothingBelow(g, todo, id, 0);
    } else {
      forall x | x in Subtree(Par(g), id)
        ensures false
      {
        UnderOrder(Par(g), id, x);
      }
    }
  }

  lemma NoneDone(cfg: Config, g: Tree, todo: set<NodeId>, tree: Tree, id: NodeId)
    requires ValidTree(cfg, g) && id in g && id in tree && tree[id] == g[id]
    ensures Below(Par(g), {}) == {}
    ensures Replaced(cfg, g, todo, tree, {})[id := PartialNode(cfg, g, todo, id, {})] == tree
    ensures SettledSlices(cfg, g, todo, {}) == map[]
    ensures PartialSlice(cfg, g, todo, {}) == SliceNode(Zeros(|cfg.meta|), Zeros(|cfg.meta|), 0)
  {
    var p := PartialNode(cfg, g, todo, id, {});
    assert ValidNode(cfg, g, id);
    assert p.cld == g[id].cld && p.temp == g[id].temp;
    assert PartialSlice(cfg, g, todo, {}).cld == Zeros(|cfg.meta|);
  }

  /** The tree when the children in `done` have been cleared. */
  ghost function TreeSoFar(cfg: Config, g: Tree, todo: set<NodeId>, tree: Tree, id: NodeId, done: set<NodeId>): Tree
    requires ValidTree(cfg, g) && id in g
  {
    assert ValidNode(cfg, g, id);
    Replaced(cfg, g, todo, tree, Below(Par(g), done))[id := PartialNode(cfg, g, todo, id, done)]
  }

  ghost function SliceSoFar(
    cfg: Config, g: Tree, todo: set<NodeId>, base: map<NodeId, SliceNode>, id: NodeId, done: set<NodeId>): map<NodeId, SliceNode>
  {
    base + SettledSlices(cfg, g, todo, Below(Par(g), done))[id := PartialSlice(cfg, g, todo, done)]
  }

  lemma FirstSlice(cfg: Config, g: Tree, todo: set<NodeId>, base: map<NodeId, SliceNode>, id: NodeId)
    ensures base[id := PartialSlice(cfg, g, todo, {})] == SliceSoFar(cfg, g, todo, base, id, {})
  {
    var p := PartialSlice(cfg, g, todo, {});
    assert SettledSlices(cfg, g, todo, Below(Par(g), {}))[id := p] == map[id := p];
  }

  /** The subtree of a child still to be cleared has not been touched. */
  lemma NotYet(par: Parents, id: NodeId, done: set<NodeId>, c: NodeId)
    requires WellFormed(par) && id in par && done <= Kids(par, id) && c in Kids(par, id) && c !in done
    ensures Below(par, done) !! Subtree(par, c)
    ensures id !in Below(par, done)
    ensures Below(par, done + {c}) == Below(par, done) + Subtree(par, c)
  {
    forall k | k in done
      ensures Subtree(par, k) !! Subtree(par, c)
      ensures id !in Subtree(par, k)
    {
      KidsApart(par, id, k, c);
      SubtreeOfKid(par, id, k);
      assert Hangs(par, k);
      if Under(par, k, id) {
        UnderOrder(par, k, id);
      }
    }
    forall x | x in Below(par, done)
      ensures x !in Subtree(par, c) && x != id
    {
      var k :| k in done && Under(par, k, x);
      assert x in Subtree(par, k);
    }
  }

  lemma PartialStep(cfg: Config, g: Tree, todo: set<NodeId>, id: NodeId, done: set<NodeId>, c: NodeId)
    requires ValidTree(cfg, g) && id in g && c in g && c !in done
    ensures ValidNode(cfg, g, id)
    ensures var p, q, gains := PartialNode(cfg, g, todo, id, done), PartialNode(cfg, g, todo, id, done + {c}), Gains(cfg, g, todo, c);
      && |p.cld| <= |cfg.meta| && |p.temp| <= |cfg.meta|
      && q == if c in todo then p.(cld := AddFrom(cfg, p.cld, gains, false), temp := AddFrom(cfg, p.temp, gains, true))
              else p
  {
    ChildGainStep(cfg, g, todo, done, c);
    assert ValidNode(cfg, g, id);
    var p, q := PartialNode(cfg, g, todo, id, done), PartialNode(cfg, g, todo, id, done + {c});
    if c in todo {
      assert q.cld == AddFrom(cfg, p.cld, Gains(cfg, g, todo, c), false);
      assert q.temp == AddFrom(cfg, p.temp, Gains(cfg, g, todo, c), true);
    } else {
      assert q.cld == p.cld && q.temp == p.temp;
    }
  }

  lemma ReplacedMore(cfg: Config, g: Tree, todo: set<NodeId>, tree: Tree, id: NodeId, p: Node, a: set<NodeId>, b: set<NodeId>)
    requires ValidTree(cfg, g)
    requires id in tree && id !in b
    ensures Replaced(cfg, g, todo, Replaced(cfg, g, todo, tree, a)[id := p], b) == Replaced(cfg, g, todo, tree, a + b)[id := p]
  {
  }

  lemma TreeStep(cfg: Config, g: Tree, todo: set<NodeId>, tree: Tree, id: NodeId, done: set<NodeId>, c: NodeId)
    requires ValidTree(cfg, g) && id in g && id in tree && c in tree
    requires done <= Kids(Par(g), id) && c in Kids(Par(g), id) && c !in done
    ensures ValidNode(cfg, g, id) && ValidNode(cfg, g, c)
    ensures var now, next := TreeSoFar(cfg, g, todo, tree, id, done), TreeSoFar(cfg, g, todo, tree, id, done + {c});
      var cleared := Replaced(cfg, g, todo, now, Subtree(Par(g), c));
      && c in cleared && cleared[c] == SettledNode(cfg, g, todo, c)
      && id in cleared && cleared[id] == PartialNode(cfg, g, todo, id, done)
      && next == if c in todo then
                   cleared[id := cleared[id].(cld := AddFrom(cfg, cleared[id].cld, cleared[c].temp, false),
                                              temp := AddFrom(cfg, cleared[id].temp, cleared[c].temp, true))]
                 else cleared
  {
    var par := Par(g);
    NotYet(par, id, done, c);
    NotUnder(par, id, c);
    PartialStep(cfg, g, todo, id, done, c);
    assert ValidNode(cfg, g, c);
    ReplacedMore(cfg, g, todo, tree, id, PartialNode(cfg, g, todo, id, done), Below(par, done), Subtree(par, c));
  }

  lemma NotUnder(par: Parents, id: NodeId, c: NodeId)
    requires WellFormed(par) && id in par && c in Kids(par, id)
    ensures id !in Subtree(par, c) && c in Subtree(par, c)
  {
    SubtreeOfKid(par, id, c);
    assert Hangs(par, c);
    if Under(par, c, id) {
      UnderOrder(par, c, id);
    }
  }

  lemma SliceStep(
    cfg: Config, g: Tree, todo: set<NodeId>, base: map<NodeId, SliceNode>, id: NodeId, done: set<NodeId>, c: NodeId)
    requires ValidTree(cfg, g) && id in g
    requires done <= Kids(Par(g), id) && c in Kids(Par(g), id) && c !in done
    ensures
      var now, next := SliceSoFar(cfg, g, todo, base, id, done), SliceSoFar(cfg, g, todo, base, id, done + {c});
      var cleared := now + SettledSlices(cfg, g, todo, Subtree(Par(g), c));
      && id in cleared && cleared[id] == PartialSlice(cfg, g, todo, done)
      && (c in todo ==>
           next == cleared[id := cleared[id].(cld := AddFrom(cfg, cleared[id].cld, Gains(cfg, g, todo, c), false))])
      && (c !in todo ==> next == cleared)
  {
    var par := Par(g);
    NotYet(par, id, done, c);
    NotUnder(par, id, c);
    ChildGainStep(cfg, g, todo, done, c);
    var a, b := SettledSlices(cfg, g, todo, Below(par, done)), SettledSlices(cfg, g, todo, Subtree(par, c));
    var p, q := PartialSlice(cfg, g, todo, done), PartialSlice(cfg, g, todo, done + {c});
    assert SettledSlices(cfg, g, todo, Below(par, done + {c})) == a + b;
    OverwriteLast(base, a, b, id, p, q);
  }

  lemma OverwriteLast<V>(base: map<NodeId, V>, a: map<NodeId, V>, b: map<NodeId, V>, id: NodeId, p: V, q: V)
    requires id !in b
    ensures (base + a[id := p] + b)[id := q] == base + (a + b)[id := q]
    ensures (base + a[id := p] + b)[id] == p
    ensures p == q ==> (base + a[id := p] + b)[id := q] == base + a[id := p] + b
  {
  }

  /** The subtree of the next child is as it was when clearing began. */
  lemma Untouched(
    cfg: Config, g: Tree, todo: set<NodeId>, tree: Tree, base: map<NodeId, SliceNode>, id: NodeId, done: set<NodeId>, c: NodeId)
    requires ValidTree(cfg, g) && id in g
    requires done <= Kids(Par(g), id) && c in Kids(Par(g), id) && c !in done
    requires forall x :: x in Subtree(Par(g), id) ==> x in tree && tree[x] == g[x] && x !in base
    ensures c in tree
    ensures Subtree(Par(g), c) < Subtree(Par(g), id)
    ensures forall x :: x in Subtree(Par(g), c) ==>
      && x in TreeSoFar(cfg, g, todo, tree, id, done) && TreeSoFar(cfg, g, todo, tree, id, done)[x] == g[x]
      && x !in SliceSoFar(cfg, g, todo, base, id, done)
  {
    SubtreeOfKid(Par(g), id, c);
    NotYet(Par(g), id, done, c);
    NotUnder(Par(g), id, c);
  }

  lemma ChildGainStep(cfg: Config, g: Tree, todo: set<NodeId>, done: set<NodeId>, c: NodeId)
    requires c in g && c !in done
    ensures ChildGains(cfg, g, todo, done + {c})
         == if c in todo then AddFrom(cfg, ChildGains(cfg, g, todo, done), Gains(cfg, g, todo, c), false)
            else ChildGains(cfg, g, todo, done)
  {
    var after := ChildGains(cfg, g, todo, done + {c});
    forall i | 0 <= i < |cfg.meta|
      ensures after[i] == ChildGain(cfg, g, todo, done, i)
                + if c in todo && !cfg.meta[i].isStatic then Gain(cfg, g, todo, c, i) else 0
    {
      SumPull(done + {c}, GainCol(cfg, g, todo, i), c);
      assert done + {c} - {c} == done;
    }
    assert after == if c in todo then AddFrom(cfg, ChildGains(cfg, g, todo, done), Gains(cfg, g, todo, c), false)
                    else ChildGains(cfg, g, todo, done);
  }

  /** With every child added in, flushing yields exactly the settled node. */
  lemma AllDone(cfg: Config, g: Tree, todo: set<NodeId>, id: NodeId)
    requires ValidTree(cfg, g) && UpClosed(Par(g), todo) && id in g && id in todo
    ensures ValidNode(cfg, g, id) && Kids(Par(g), id) == g[id].children
    ensures var p := PartialNode(cfg, g, todo, id, g[id].children);
      && p.temp == Gains(cfg, g, todo, id) && |p.all| == Width(cfg, id) && p.tempCount == g[id].tempCount
      && Flushed(cfg, p) == SettledNode(cfg, g, todo, id)
  {
    var kids := Kids(Par(g), id);
    assert ValidNode(cfg, g, id);
    var p := PartialNode(cfg, g, todo, id, kids);
    forall i | 0 <= i < |cfg.meta|
      ensures p.temp[i] == Gain(cfg, g, todo, id, i)
    {
      if !cfg.meta[i].isStatic && !cfg.meta[i].accumulated {
        GainSplit(cfg, g, todo, id, i);
      }
    }
    assert p.temp == Gains(cfg, g, todo, id);
    assert p.cld == Absorb(cfg, g[id].cld, ChildGains(cfg, g, todo, kids), false);
  }

  lemma AllDoneTree(cfg: Config, g: Tree, todo: set<NodeId>, tree: Tree, id: NodeId)
    requires ValidTree(cfg, g) && UpClosed(Par(g), todo) && id in g && id in todo && id in tree
    ensures ValidNode(cfg, g, id)
    ensures var t := TreeSoFar(cfg, g, todo, tree, id, g[id].children);
      && t[id] == PartialNode(cfg, g, todo, id, g[id].children)
      && |t[id].temp| == |cfg.meta| && |t[id].all| == Width(cfg, id)
      && t[id := Flushed(cfg, t[id])] == Replaced(cfg, g, todo, tree, Subtree(Par(g), id))
  {
    AllDone(cfg, g, todo, id);
    BelowAndSelf(Par(g), id);
  }

  lemma AllDoneSlice(cfg: Config, g: Tree, todo: set<NodeId>, base: map<NodeId, SliceNode>, id: NodeId)
    requires ValidTree(cfg, g) && UpClosed(Par(g), todo) && id in g && id in todo
    ensures ValidNode(cfg, g, id)
    ensures var s, p := SliceSoFar(cfg, g, todo, base, id, g[id].children), PartialNode(cfg, g, todo, id, g[id].children);
      && id in s && s[id] == PartialSlice(cfg, g, todo, g[id].children)
      && s[id := s[id].(all := p.temp, callCount := p.tempCount)]
         == base + SettledSlices(cfg, g, todo, Subtree(Par(g), id))
  {
    AllDone(cfg, g, todo, id);
    BelowAndSelf(Par(g), id);
    var below := Below(Par(g), g[id].children);
    SlicesAdd(cfg, g, todo, below, id);
    AssignTwice(base, SettledSlices(cfg, g, todo, below), id,
                PartialSlice(cfg, g, todo, g[id].children), SettledSlice(cfg, g, todo, id));
  }

  lemma SlicesAdd(cfg: Config, g: Tree, todo: set<NodeId>, s: set<NodeId>, id: NodeId)
    requires id in g && id in todo
    ensures SettledSlices(cfg, g, todo, s + {id}) == SettledSlices(cfg, g, todo, s)[id := SettledSlice(cfg, g, todo, id)]
  {
  }

  lemma AssignTwice<V>(base: map<NodeId, V>, a: map<NodeId, V>, id: NodeId, p: V, q: V)
    ensures id in base + a[id := p] && (base + a[id := p])[id] == p
    ensures (base + a[id := p])[id := q] == base + a[id := q]
  {
  }

  lemma BelowAndSelf(par: Parents, id: NodeId)
    requires WellFormed(par) && id in par
    ensures Subtree(par, id) == Below(par, Kids(par, id)) + {id}
  {
    forall x | x in Subtree(par, id) && x != id
      ensures x in Below(par, Kids(par, id))
    {
      var c := Branch(par, id, x);
    }
    forall x | x in Below(par, Kids(par, id))
      ensures x in Subtree(par, id)
    {
      var c :| c in Kids(par, id) && Under(par, c, x);
      SubtreeOfKid(par, id, c);
      assert x in Subtree(par, c);
    }
  }

  ghost predicate AllAttrs(cfg: Config, g: Tree, ids: set<NodeId>) {
    forall c :: c in ids ==> c in g && IsAttr(cfg, c, g[c].name)
  }

  lemma TakenOut(kids: set<NodeId>, rest: set<NodeId>, attrs: set<NodeId>, c: NodeId)
    requires c in rest && rest <= kids && attrs <= kids - rest
    ensures kids - (rest - {c}) - (attrs + {c}) == kids - rest - attrs
    ensures kids - (rest - {c}) - attrs == kids - rest - attrs + {c}
  {
  }

  lemma OneLess(kids: set<NodeId>, rest: set<NodeId>, c: NodeId)
    requires c in rest && rest <= kids
    ensures kids - (rest - {c}) == kids - rest + {c}
  {
  }

  /** An attribute node's children are not collected. */
  lemma NoneInside(cfg: Config, g: Tree, todo: set<NodeId>, id: NodeId, c: NodeId)
    requires ValidTree(cfg, g) && Clearing(cfg, g, todo)
    requires id in g && IsAttr(cfg, id, g[id].name) && c in Kids(Par(g), id)
    ensures c in g && c !in todo
  {
    assert ClearedAt(cfg, g, todo, c) && Hangs(Par(g), c);
  }

  lemma NothingInside(
    cfg: Config, g: Tree, todo: set<NodeId>, tree: Tree, base: map<NodeId, SliceNode>, id: NodeId)
    requires ValidTree(cfg, g) && UpClosed(Par(g), todo) && Clearing(cfg, g, todo)
    requires id in g && id in tree && IsAttr(cfg, id, g[id].name)
    requires forall x :: x in Subtree(Par(g), id) ==> x in tree && tree[x] == g[x]
    ensures TreeSoFar(cfg, g, todo, tree, id, {}) == TreeSoFar(cfg, g, todo, tree, id, g[id].children)
    ensures SliceSoFar(cfg, g, todo, base, id, {}) == SliceSoFar(cfg, g, todo, base, id, g[id].children)
  {
    var kids := g[id].children;
    assert ValidNode(cfg, g, id);
    NothingGained(cfg, g, todo, id);
    var below := Below(Par(g), kids);
    forall x | x in below
      ensures x !in todo
    {
      var c :| c in kids && Under(Par(g), c, x);
      NoneInside(cfg, g, todo, id, c);
      NothingBelow(g, todo, c, 0);
    }
    BelowAndSelf(Par(g), id);
    assert SettledSlices(cfg, g, todo, below) == map[];
    assert SettledSlices(cfg, g, todo, Below(Par(g), {})) == map[];
    assert Replaced(cfg, g, todo, tree, below) == tree;
    assert Replaced(cfg, g, todo, tree, Below(Par(g), {})) == tree;
  }

  lemma NothingGained(cfg: Config, g: Tree, todo: set<NodeId>, id: NodeId)
    requires ValidTree(cfg, g) && Clearing(cfg, g, todo) && id in g && IsAttr(cfg, id, g[id].name)
    ensures ChildGains(cfg, g, todo, g[id].children) == ChildGains(cfg, g, todo, {})
    ensures forall i :: 0 <= i < |cfg.meta| ==> Sum(g[id].children, GainCol(cfg, g, todo, i)) == 0
  {
    assert ValidNode(cfg, g, id);
    forall i | 0 <= i < |cfg.meta|
      ensures Sum(g[id].children, GainCol(cfg, g, todo, i)) == 0
    {
      forall c | c in g[id].children
        ensures c !in todo
      {
        NoneInside(cfg, g, todo, id, c);
      }
      SumZero(g[id].children, GainCol(cfg, g, todo, i));
    }
    assert ChildGains(cfg, g, todo, g[id].children) == ChildGains(cfg, g, todo, {});
  }

  /** So it passes on just what was recorded for itself. */
  lemma AttributeGains(cfg: Config, g: Tree, todo: set<NodeId>, c: NodeId)
    requires ValidTree(cfg, g) && UpClosed(Par(g), todo) && Clearing(cfg, g, todo)
    requires c in g && c in todo && IsAttr(cfg, c, g[c].name)
    ensures Gains(cfg, g, todo, c) == g[c].temp
  {
    assert ValidNode(cfg, g, c);
    NothingGained(cfg, g, todo, c);
    forall i | 0 <= i < |cfg.meta|
      ensures Gain(cfg, g, todo, c, i) == g[c].temp[i]
    {
      if !cfg.meta[i].isStatic && !cfg.meta[i].accumulated {
        GainSplit(cfg, g, todo, c, i);
      }
    }
    assert Gains(cfg, g, todo, c) == g[c].temp;
  }

  lemma PlusNothing<V>(m: map<NodeId, V>)
    ensures m + map[] == m
  {
  }

  /** A child that is not collected changes nothing. */
  lemma SkipStep(
    cfg: Config, g: Tree, todo: set<NodeId>, tree: Tree, base: SliceTree, id: NodeId, done: set<NodeId>, c: NodeId)
    requires ValidTree(cfg, g) && UpClosed(Par(g), todo) && id in g && id in tree && c in tree && c !in todo
    requires done <= Kids(Par(g), id) && c in Kids(Par(g), id) && c !in done
    requires forall x :: x in Subtree(Par(g), id) ==> x in tree && tree[x] == g[x] && x !in base
    ensures TreeSoFar(cfg, g, todo, tree, id, done + {c}) == TreeSoFar(cfg, g, todo, tree, id, done)
    ensures SliceSoFar(cfg, g, todo, base, id, done + {c}) == SliceSoFar(cfg, g, todo, base, id, done)
  {
    Untouched(cfg, g, todo, tree, base, id, done, c);
    TreeStep(cfg, g, todo, tree, id, done, c);
    SliceStep(cfg, g, todo, base, id, done, c);
    NothingToClear(cfg, g, todo, TreeSoFar(cfg, g, todo, tree, id, done), c);
    PlusNothing(SliceSoFar(cfg, g, todo, base, id, done));
  }

  /** Adding an attribute node's values first and clearing it then comes to the same. */
  lemma AttributeTreeStep(
    cfg: Config, g: Tree, todo: set<NodeId>, tree: Tree, id: NodeId, done: set<NodeId>, c: NodeId)
    requires ValidTree(cfg, g) && UpClosed(Par(g), todo) && Clearing(cfg, g, todo)
    requires id in g && id in tree && c in tree && c in todo && c in g && IsAttr(cfg, c, g[c].name)
    requires done <= Kids(Par(g), id) && c in Kids(Par(g), id) && c !in done
    ensures ValidNode(cfg, g, id) && ValidNode(cfg, g, c)
    ensures var now, next := TreeSoFar(cfg, g, todo, tree, id, done), TreeSoFar(cfg, g, todo, tree, id, done + {c});
      var added := now[id := now[id].(cld := AddFrom(cfg, now[id].cld, g[c].temp, false),
                                      temp := AddFrom(cfg, now[id].temp, g[c].temp, true))];
      Replaced(cfg, g, todo, added, Subtree(Par(g), c)) == next
  {
    var par := Par(g);
    NotYet(par, id, done, c);
    NotUnder(par, id, c);
    AttributeGains(cfg, g, todo, c);
    PartialStep(cfg, g, todo, id, done, c);
    assert ValidNode(cfg, g, c);
    ReplacedMore(cfg, g, todo, tree, id, PartialNode(cfg, g, todo, id, done + {c}), Below(par, done), Subtree(par, c));
  }

  lemma AttributeSliceStep(
    cfg: Config, g: Tree, todo: set<NodeId>, base: SliceTree, id: NodeId, done: set<NodeId>, c: NodeId)
    requires ValidTree(cfg, g) && UpClosed(Par(g), todo) && Clearing(cfg, g, todo)
    requires id in g && c in todo && c in g && IsAttr(cfg, c, g[c].name)
    requires done <= Kids(Par(g), id) && c in Kids(Par(g), id) && c !in done
    ensures |g[c].temp| == |cfg.meta|
    ensures
      var now, next := SliceSoFar(cfg, g, todo, base, id, done), SliceSoFar(cfg, g, todo, base, id, done + {c});
      && id in now && |now[id].cld| <= |cfg.meta|
      && now[id := now[id].(cld := AddFrom(cfg, now[id].cld, g[c].temp, false))]
         + SettledSlices(cfg, g, todo, Subtree(Par(g), c)) == next
  {
    var par := Par(g);
    NotYet(par, id, done, c);
    NotUnder(par, id, c);
    AttributeGains(cfg, g, todo, c);
    ChildGainStep(cfg, g, todo, done, c);
    var a, b := SettledSlices(cfg, g, todo, Below(par, done)), SettledSlices(cfg, g, todo, Subtree(par, c));
    assert SettledSlices(cfg, g, todo, Below(par, done + {c})) == a + b;
    OverwriteFirst(base, a, b, id, PartialSlice(cfg, g, todo, done), PartialSlice(cfg, g, todo, done + {c}));
  }

  lemma OverwriteFirst<V>(base: map<NodeId, V>, a: map<NodeId, V>, b: map<NodeId, V>, id: NodeId, p: V, q: V)
    requires id !in b
    ensures (base + a[id := p])[id := q] + b == base + (a + b)[id := q]
    ensures (base + a[id := p])[id] == p
  {
  }

  lemma NewLeaf(cfg: Config, tree: Tree, bigger: Tree, id: NodeId)
    requires ValidTree(cfg, tree) && GnidsOk(cfg, tree) && id !in tree
    requires id in bigger && bigger == tree[id := bigger[id]]
    requires bigger[id].parent in tree && bigger[id].parent < id
    ensures WellFormed(Par(bigger))
    ensures forall x :: x in bigger && Under(Par(bigger), x, id) && x != id ==> GnidOk(cfg, bigger, x)
  {
    var a, b := Par(tree), Par(bigger);
    assert b == a[id := bigger[id].parent];
    forall x | x in b
      ensures Hangs(b, x)
    {
      assert x in a ==> Hangs(a, x);
    }
    forall x | x in bigger && Under(b, x, id) && x != id
      ensures GnidOk(cfg, bigger, x)
    {
      UnderOrder(b, x, id);
      assert GnidOk(cfg, tree, x);
    }
  }

  lemma FlagsKeepValid(cfg: Config, tree: Tree, run: NodeId, flag: bool)
    requires ValidTree(cfg, tree)
    ensures ValidTree(cfg, FlagUp(tree, run, flag))
  {
    SameOutlineValid(cfg, tree, FlagUp(tree, run, flag));
  }

  lemma Unflagged(tree: Tree, from: NodeId, x: NodeId)
    requires RunningOk(tree, from) && x in tree
    ensures FlagUp(tree, from, false)[x] == tree[x].(running := false)
  {
  }

  lemma FlagsOnly(cfg: Config, tree: Tree, from: NodeId, run: NodeId)
    ensures Par(FlagUp(tree, from, false)) == Par(tree) == Par(MarkUp(cfg, tree, run))
    ensures Dirty(FlagUp(tree, from, false)) == Dirty(tree)
  {
  }

  lemma MarkedAndFlagged(cfg: Config, tree: Tree, run: NodeId, x: NodeId)
    requires x in tree
    ensures var node := if Reach(Par(tree), Dirty(tree), x, run) then Marked(cfg, tree[x]) else tree[x];
      FlagUp(MarkUp(cfg, tree, run), run, true)[x]
      == if Under(Par(tree), x, run) then node.(running := true) else node
  {
    FlagsOnly(cfg, tree, run, run);
  }

  lemma StagedEmpty(cfg: Config, tree: Tree, run: NodeId, x: NodeId)
    requires ValidTree(cfg, tree) && x in tree
    ensures Staged(cfg, tree, run, [])[x]
         == Stage(cfg, tree[x], Reach(Par(tree), Dirty(tree), x, run), Under(Par(tree), x, run), None)
  {
    if Under(Par(tree), x, run) {
      UnderOrder(Par(tree), x, run);
    }
    if Reach(Par(tree), Dirty(tree), x, run) {
      ReachUnder(Par(tree), Dirty(tree), x, run);
    }
  }

  /** Moving the running flags and marking the running node stages an empty buffer. */
  lemma StagedStart(cfg: Config, tree: Tree, unflagged: Tree, from: NodeId, run: NodeId)
    requires ValidTree(cfg, tree) && RunningOk(tree, from) && unflagged == FlagUp(tree, from, false)
    ensures ValidTree(cfg, unflagged)
    ensures WellFormed(Par(MarkUp(cfg, unflagged, run)))
    ensures FlagUp(MarkUp(cfg, unflagged, run), run, true) == Staged(cfg, tree, run, [])
  {
    FlagsKeepValid(cfg, tree, from, false);
    FlagsOnly(cfg, unflagged, run, run);
    var a, b := FlagUp(MarkUp(cfg, unflagged, run), run, true), Staged(cfg, tree, run, []);
    FlagsOnly(cfg, tree, from, run);
    forall x | x in tree.Keys
      ensures a[x] == b[x]
    {
      Unflagged(tree, from, x);
      MarkedAndFlagged(cfg, unflagged, run, x);
      StagedEmpty(cfg, tree, run, x);
      if Reach(Par(tree), Dirty(tree), x, run) {
        ReachUnder(Par(tree), Dirty(tree), x, run);
      }
      StartNodeStaged(cfg, tree[x], unflagged[x], Reach(Par(tree), Dirty(tree), x, run), Under(Par(tree), x, run));
    }
    assert a.Keys == tree.Keys == b.Keys;
    SameMap(a, b);
  }

  lemma StartNodeStaged(cfg: Config, node: Node, unflagged: Node, marked: bool, running: bool)
    requires unflagged == node.(running := false) && (marked ==> !node.dirty && running)
    ensures var n := if marked then Marked(cfg, unflagged) else unflagged;
      (if running then n.(running := true) else n) == Stage(cfg, node, marked, running, None)
  {
    assert DefaultTemp(cfg, unflagged) == DefaultTemp(cfg, node);
  }

  lemma FillIsMark(cfg: Config, tree: Tree, r: Record)
    requires r.id in tree
    ensures var m := MarkUp(cfg, tree, r.id); m[r.id := WithTemp(m[r.id], r)] == Fill(cfg, tree, r)
  {
    assert Reach(Par(tree), Dirty(tree), r.id, r.id) || tree[r.id].dirty;
  }

  lemma StagedReady(cfg: Config, tree: Tree, run: NodeId, recs: seq<Record>)
    requires ValidTree(cfg, tree) && Quiet(cfg, tree) && GnidsOk(cfg, tree)
    requires Storable(tree.Keys, recs) && RecordWidths(cfg, recs)
    ensures var g := Staged(cfg, tree, run, recs);
      ValidTree(cfg, g) && UpClosed(Par(g), Collected(cfg, g)) && GnidsOk(cfg, g)
  {
    var big := AddAll(cfg, tree, recs);
    StagedValid(cfg, tree, run, recs);
    AddAllGnids(cfg, tree, recs);
    StagingKeeps(cfg, big, MarkSet(tree, big, run, recs), RunningSet(tree, big, run), run, recs);
  }

  lemma StorableTake(known: set<NodeId>, recs: seq<Record>, k: nat)
    requires Storable(known, recs) && k <= |recs|
    ensures Storable(known, recs[..k])
  {
    var init := recs[..k];
    forall j | 0 <= j < k
      ensures StorableAt(known, init, j)
    {
      assert StorableAt(known, recs, j);
      assert init[..j] == recs[..j];
    }
  }

  /** Everything the loop body of `Store` needs, and what it achieves. */
  lemma StepReady(cfg: Config, tree: Tree, run: NodeId, recs: seq<Record>, k: nat)
    requires ValidTree(cfg, tree) && Quiet(cfg, tree) && GnidsOk(cfg, tree)
    requires Storable(tree.Keys, recs) && RecordWidths(cfg, recs) && k < |recs|
    ensures Storable(tree.Keys, recs[..k]) && Storable(tree.Keys, recs[..k + 1])
    ensures var g, r := Staged(cfg, tree, run, recs[..k]), recs[k];
      && ValidTree(cfg, g) && GnidsOk(cfg, g)
      && (r.id in g || (r.parent in g && r.parent < r.id))
      && ValidTree(cfg, AddNode(cfg, g, r))
      && r.id in AddNode(cfg, g, r)
      && Fill(cfg, AddNode(cfg, g, r), r) == Staged(cfg, tree, run, recs[..k + 1])
  {
    StorableTake(tree.Keys, recs, k);
    StorableTake(tree.Keys, recs, k + 1);
    var next := recs[..k + 1];
    assert next[..|next| - 1] == recs[..k];
    StagedReady(cfg, tree, run, recs[..k]);
    StagedStep(cfg, tree, run, recs[..k], next, recs[k]);
    var g := Staged(cfg, tree, run, recs[..k]);
    AddNodeValid(cfg, g, recs[k]);
  }

  /** Clearing from the root reaches every node. */
  lemma WholeTree(cfg: Config, g: Tree, todo: set<NodeId>)
    requires ValidTree(cfg, g)
    ensures Subtree(Par(g), ROOT) == g.Keys
    ensures Replaced(cfg, g, todo, g, g.Keys) == Settle(cfg, g, todo)
  {
    forall x | x in g
      ensures Under(Par(g), ROOT, x)
    {
      UnderRoot(Par(g), x);
    }
  }
}
