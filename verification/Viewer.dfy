/** The browser's copy of a thread's tree: linking nodes, accumulating
    differences, flagging the running path, and reading values. */
module Viewer {
  import opened Wire
  import opened Sums
  import opened Forest
  import opened StoreModel
  import opened TimeSlices

  /** A node as the monitor sends it. */
  datatype DumpNode = DumpNode(id: NodeId, pid: NodeId, values: SliceNode)

  datatype ViewNode = ViewNode(pid: NodeId, cid: set<NodeId>, values: SliceNode, running: bool)

  type View = map<NodeId, ViewNode>

  // --------------------------------------------------------- reading values

  /** What the value of a column means while a thread is shown: in real time, or
      in a window with its own start and end readings. */
  function ProfileValueAll(
    realTime: bool, startValues: Option<seq<int>>, nowValues: seq<int>, node: ViewNode, index: nat): int
    requires index < |node.values.all| && |node.values.all| >= 2 && |nowValues| >= 2
    requires startValues.Some? ==> |startValues.value| >= 2
  {
    var all := node.values.all;
    if index != 0 then all[index]
    else if node.running && all[1] == 0 then all[0]
    else
      var start := if !realTime && startValues.Some? && all[1] < startValues.value[1] then startValues.value[1]
                   else all[1];
      var val := if node.running then all[0] + (nowValues[1] - start) else all[0];
      if !realTime && startValues.Some? && val > nowValues[1] - startValues.value[1] then
        nowValues[1] - startValues.value[1]
      else val
  }

  function ProfileValueSelf(
    realTime: bool, startValues: Option<seq<int>>, nowValues: seq<int>, node: ViewNode, index: nat): int
    requires index < |node.values.all| == |node.values.cld| && |node.values.all| >= 2 && |nowValues| >= 2
    requires startValues.Some? ==> |startValues.value| >= 2
  {
    ProfileValueAll(realTime, startValues, nowValues, node, index) - node.values.cld[index]
  }

  // ------------------------------------------------------------------ shape

  ghost function ViewPar(nodes: View): Parents {
    map x | x in nodes :: nodes[x].pid
  }

  ghost function ViewValues(nodes: View): SliceTree {
    map x | x in nodes :: nodes[x].values
  }

  /** Parents are present and child tables complete. */
  ghost predicate Linked(nodes: View) {
    nodes != map[] ==>
      WellFormed(ViewPar(nodes)) && forall x {:trigger KidsAt(nodes, x)} :: x in nodes ==> KidsAt(nodes, x)
  }

  ghost predicate KidsAt(nodes: View, x: NodeId)
    requires x in nodes
  {
    nodes[x].cid == Kids(ViewPar(nodes), x)
  }

  /** A dumped node is known, or is the root, or hangs below a known node. */
  ghost predicate Attachable(known: set<NodeId>, d: DumpNode) {
    d.id in known || (d.id == ROOT && d.pid == 0) || (d.pid in known && d.pid < d.id)
  }

  ghost function DumpIds(dump: seq<DumpNode>): set<NodeId> {
    if dump == [] then {} else DumpIds(dump[..|dump| - 1]) + {dump[|dump| - 1].id}
  }

  ghost predicate Ordered(known: set<NodeId>, dump: seq<DumpNode>) {
    dump == [] || (Ordered(known, dump[..|dump| - 1])
                   && Attachable(known + DumpIds(dump[..|dump| - 1]), dump[|dump| - 1]))
  }

  ghost predicate ViewWidths(cfg: Config, nodes: View) {
    SliceWidths(cfg, ViewValues(nodes))
  }

  ghost predicate DumpWidths(cfg: Config, dump: seq<DumpNode>) {
    forall k :: 0 <= k < |dump| ==> NodeWidths(cfg, dump[k].values)
  }

  /** What one dumped node does to the view. */
  ghost function Attach(cfg: Config, nodes: View, d: DumpNode): View
    requires ViewWidths(cfg, nodes) && NodeWidths(cfg, d.values)
    requires d.id in nodes || d.pid == 0 || d.pid in nodes
  {
    if d.id in nodes then
      assert ViewValues(nodes)[d.id] == nodes[d.id].values;
      nodes[d.id := nodes[d.id].(values := Accumulate(cfg, nodes[d.id].values, d.values))]
    else
      var grown := nodes[d.id := ViewNode(d.pid, {}, d.values, false)];
      if d.pid == 0 then grown
      else grown[d.pid := grown[d.pid].(cid := grown[d.pid].cid + {d.id})]
  }

  lemma AttachLinked(cfg: Config, nodes: View, d: DumpNode)
    requires Linked(nodes) && ViewWidths(cfg, nodes) && NodeWidths(cfg, d.values)
    requires Attachable(nodes.Keys, d)
    ensures d.id in nodes || d.pid == 0 || d.pid in nodes
    ensures var after := Attach(cfg, nodes, d);
      && Linked(after) && after.Keys == nodes.Keys + {d.id}
      && Extends(ViewPar(nodes), ViewPar(after))
  {
    var after := Attach(cfg, nodes, d);
    if d.id in nodes {
      assert ViewPar(nodes) == ViewPar(after);
      forall x | x in after
        ensures KidsAt(after, x)
      {
        assert KidsAt(nodes, x);
      }
    } else {
      LinkedMore(nodes, after, d.id, d.pid);
    }
  }

  lemma LinkedMore(nodes: View, after: View, id: NodeId, pid: NodeId)
    requires Linked(nodes) && id !in nodes && ((id == ROOT && pid == 0) || (pid in nodes && pid < id))
    requires ViewPar(after) == ViewPar(nodes)[id := pid] && id in after && after[id].cid == {}
    requires forall x :: x in nodes ==>
      x in after && after[x].cid == nodes[x].cid + if x == pid then {id} else {}
    ensures Linked(after) && after.Keys == nodes.Keys + {id} && Extends(ViewPar(nodes), ViewPar(after))
  {
    var a, b := ViewPar(nodes), ViewPar(after);
    NewLeaf(a, b, id, pid);
    assert b.Keys == after.Keys && a.Keys == nodes.Keys;
    forall x | x in after
      ensures KidsAt(after, x)
    {
      assert x != id ==> KidsAt(nodes, x);
    }
  }

  /** A new node below a known one, or the root in an empty view. */
  lemma NewLeaf(a: Parents, b: Parents, id: NodeId, pid: NodeId)
    requires a == map[] || WellFormed(a)
    requires b == a[id := pid] && id !in a && ((id == ROOT && pid == 0) || (pid in a && pid < id))
    ensures WellFormed(b) && Kids(b, id) == {}
    ensures forall x :: x in a ==> Kids(b, x) == Kids(a, x) + if x == pid then {id} else {}
  {
    forall x | x in b
      ensures Hangs(b, x) && b[x] != id
    {
      assert x in a ==> Hangs(a, x);
    }
  }

  /** Accumulating a node is what merging its slice does. */
  lemma AttachValues(cfg: Config, nodes: View, d: DumpNode)
    requires ViewWidths(cfg, nodes) && NodeWidths(cfg, d.values)
    requires d.id in nodes || d.pid == 0 || (d.pid in nodes && d.pid != d.id)
    ensures ViewValues(Attach(cfg, nodes, d)) == Onto(cfg, ViewValues(nodes), map[d.id := d.values])
  {
    AccumulateAssoc(cfg, d.values, d.values, d.values);
    var l, r := ViewValues(Attach(cfg, nodes, d)), Onto(cfg, ViewValues(nodes), map[d.id := d.values]);
    assert l.Keys == r.Keys;
  }

  class ViewerThread {
    const cfg: Config
    var nodes: View
    var now: seq<int>
    var runningNode: Option<NodeId>

    ghost predicate Valid()
      reads this
    {
      && Linked(nodes) && ViewWidths(cfg, nodes)
      && forall x :: x in nodes && nodes[x].running ==> runningNode.Some? && Under(ViewPar(nodes), x, runningNode.value)
    }

    /** Walks from the running node up, setting or clearing the flag. */
    method SetRunningNode(flag: bool)
      requires Linked(nodes)
      modifies this`nodes
      ensures nodes == Flagged(old(nodes), runningNode, flag)
    {
      if runningNode.None? {
        return;
      }
      var id := runningNode.value;
      ghost var before, par, run := nodes, ViewPar(nodes), runningNode.value;
      assert forall x :: !(Under(par, x, run) && !Under(par, x, run));
      while id in nodes
        invariant id in par ==> Under(par, id, run)
        invariant id !in par ==> id == run || id == 0
        invariant nodes == FlaggedBetween(before, run, id, flag)
        decreases id
      {
        WalkStep(before, run, id, flag);
        nodes := nodes[id := nodes[id].(running := flag)];
        id := nodes[id].pid;
      }
    }

    /** Adds or accumulates one dumped node. */
    method Accumurate(d: DumpNode)
      requires d.id in nodes && NodeWidths(cfg, d.values) && NodeWidths(cfg, nodes[d.id].values)
      modifies this`nodes
      ensures nodes == old(nodes)[d.id := old(nodes)[d.id].(
                values := Accumulate(cfg, old(nodes)[d.id].values, d.values))]
    {
      var dest := nodes[d.id].values;
      var all, cld := dest.all, dest.cld;
      for i := 0 to |d.values.all|
        invariant |all| == |cld| == |cfg.meta|
        invariant forall j :: 0 <= j < i ==>
          && all[j] == Combine(cfg, dest.all, d.values.all)[j]
          && cld[j] == Combine(cfg, dest.cld, d.values.cld)[j]
        invariant forall j :: i <= j < |cfg.meta| ==> all[j] == dest.all[j] && cld[j] == dest.cld[j]
      {
        if cfg.meta[i].isStatic {
          all := all[i := d.values.all[i]];
          cld := cld[i := d.values.cld[i]];
        } else {
          all := all[i := all[i] + d.values.all[i]];
          cld := cld[i := cld[i] + d.values.cld[i]];
        }
      }
      assert all == Combine(cfg, dest.all, d.values.all);
      assert cld == Combine(cfg, dest.cld, d.values.cld);
      nodes := nodes[d.id := nodes[d.id].(values :=
        SliceNode(all, cld, dest.callCount + d.values.callCount))];
    }

    /** Links a new node to its parent, or accumulates onto a known one. */
    method LinkNode(d: DumpNode)
      requires ViewWidths(cfg, nodes) && NodeWidths(cfg, d.values)
      requires d.id in nodes || d.pid == 0 || d.pid in nodes
      modifies this`nodes
      ensures nodes == Attach(cfg, old(nodes), d)
    {
      if d.id in nodes {
        assert ViewValues(nodes)[d.id] == nodes[d.id].values;
        Accumurate(d);
      } else {
        nodes := nodes[d.id := ViewNode(d.pid, {}, d.values, false)];
        if d.pid != 0 {
          nodes := nodes[d.pid := nodes[d.pid].(cid := nodes[d.pid].cid + {d.id})];
        }
      }
    }

    /** The loop over the nodes of a reply: every parent is found. */
    method LinkAll(dump: seq<DumpNode>)
      requires Linked(nodes) && ViewWidths(cfg, nodes) && NoneRunning(nodes)
      requires Ordered(nodes.Keys, dump) && DumpWidths(cfg, dump)
      modifies this`nodes
      ensures Grown(cfg, old(nodes), nodes, dump)
    {
      ghost var before := nodes;
      assert dump[..0] == [];
      var k := 0;
      while k < |dump|
        invariant 0 <= k <= |dump|
        invariant Grown(cfg, before, nodes, dump[..k])
      {
        OrderedAt(before.Keys, dump, k);
        GrownStep(cfg, before, nodes, dump, k);
        LinkNode(dump[k]);
        k := k + 1;
      }
      assert dump[..k] == dump;
    }

    /** Takes over one reply of the monitor in real-time mode. */
    method Update(dump: seq<DumpNode>, nowValues: seq<int>, running: Option<NodeId>)
      requires Valid() && Ordered(nodes.Keys, dump) && DumpWidths(cfg, dump)
      modifies this
      ensures Valid()
      ensures runningNode == if running == Some(0) then old(runningNode) else running
      ensures now == if nowValues == [] then old(now) else nowValues
      ensures Updated(cfg, old(nodes), nodes, dump, runningNode)
    {
      TakeNowInfo(nowValues, running);
      ghost var unflagged := nodes;
      LinkAll(dump);
      ghost var linked := nodes;
      FlaggedKeeps(linked, runningNode, true);
      SetRunningNode(true);
      UpdateDone(cfg, old(nodes), unflagged, linked, dump, runningNode);
    }

    method TakeNowInfo(nowValues: seq<int>, running: Option<NodeId>)
      requires Valid()
      modifies this
      ensures runningNode == if running == Some(0) then old(runningNode) else running
      ensures now == if nowValues == [] then old(now) else nowValues
      ensures ViewPar(nodes) == ViewPar(old(nodes)) && ViewValues(nodes) == ViewValues(old(nodes))
      ensures nodes.Keys == old(nodes).Keys && Linked(nodes) && NoneRunning(nodes)
    {
      ghost var before := nodes;
      FlaggedKeeps(before, runningNode, false);
      SetRunningNode(false);
      if nowValues != [] {
        now := nowValues;
      }
      if running != Some(0) {
        runningNode := running;
      }
    }
  }

  /** What a reply does to the view: its nodes are linked in or accumulated, old
      ones keep their parents, new ones get those of the reply, and exactly the
      running node and its ancestors are flagged. */
  ghost predicate Updated(cfg: Config, before: View, after: View, dump: seq<DumpNode>, run: Option<NodeId>) {
    && ViewWidths(cfg, before) && DumpWidths(cfg, dump)
    && after.Keys == before.Keys + DumpIds(dump)
    && Extends(ViewPar(before), ViewPar(after))
    && NewFrom(before, after, dump)
    && ViewValues(after) == OntoDump(cfg, ViewValues(before), dump)
    && forall x :: x in after ==> (after[x].running <==> run.Some? && Under(ViewPar(after), x, run.value))
  }

  lemma UpdateDone(
    cfg: Config, before: View, unflagged: View, linked: View, dump: seq<DumpNode>, run: Option<NodeId>)
    requires ViewWidths(cfg, before) && ViewPar(unflagged) == ViewPar(before)
    requires ViewValues(unflagged) == ViewValues(before) && unflagged.Keys == before.Keys
    requires Grown(cfg, unflagged, linked, dump)
    ensures Updated(cfg, before, Flagged(linked, run, true), dump, run)
  {
    FlaggedKeeps(linked, run, true);
  }

  ghost predicate NoneRunning(nodes: View) {
    forall x :: x in nodes ==> !nodes[x].running
  }

  /** `after` is `before` with the dumped nodes linked in or accumulated. */
  ghost predicate Grown(cfg: Config, before: View, after: View, dump: seq<DumpNode>) {
    GrownShape(before, after, dump) && GrownValues(cfg, before, after, dump)
  }

  ghost predicate GrownShape(before: View, after: View, dump: seq<DumpNode>) {
    && Linked(after) && NoneRunning(after)
    && after.Keys == before.Keys + DumpIds(dump)
    && Extends(ViewPar(before), ViewPar(after))
    && NewFrom(before, after, dump)
  }

  /** New nodes have the parents they were sent with. */
  ghost predicate NewFrom(before: View, after: View, dump: seq<DumpNode>) {
    forall x :: x in after && x !in before ==> Sends(dump, x, after[x].pid)
  }

  ghost predicate Sends(dump: seq<DumpNode>, x: NodeId, pid: NodeId) {
    exists k :: 0 <= k < |dump| && dump[k].id == x && dump[k].pid == pid
  }

  ghost predicate GrownValues(cfg: Config, before: View, after: View, dump: seq<DumpNode>) {
    && ViewWidths(cfg, before) && DumpWidths(cfg, dump) && ViewWidths(cfg, after)
    && ViewValues(after) == OntoDump(cfg, ViewValues(before), dump)
  }

  lemma GrownStep(cfg: Config, before: View, nodes: View, dump: seq<DumpNode>, k: nat)
    requires k < |dump| && DumpWidths(cfg, dump)
    requires Grown(cfg, before, nodes, dump[..k]) && Attachable(nodes.Keys, dump[k])
    ensures dump[k].id in nodes || dump[k].pid == 0 || dump[k].pid in nodes
    ensures Grown(cfg, before, Attach(cfg, nodes, dump[k]), dump[..k + 1])
  {
    assert dump[..k + 1][..k] == dump[..k];
    AttachShape(cfg, before, nodes, dump[..k + 1], dump[k]);
    AttachGrowsValues(cfg, before, nodes, dump[..k + 1], dump[k]);
  }

  lemma AttachShape(cfg: Config, before: View, nodes: View, dump: seq<DumpNode>, d: DumpNode)
    requires dump != [] && d == dump[|dump| - 1] && ViewWidths(cfg, nodes) && NodeWidths(cfg, d.values)
    requires GrownShape(before, nodes, dump[..|dump| - 1]) && Attachable(nodes.Keys, d)
    ensures d.id in nodes || d.pid == 0 || d.pid in nodes
    ensures GrownShape(before, Attach(cfg, nodes, d), dump)
  {
    AttachLinked(cfg, nodes, d);
    AttachQuiet(cfg, nodes, d);
    AttachPids(cfg, nodes, d);
    AttachSends(before, nodes, Attach(cfg, nodes, d), dump, d);
    ExtendsTrans(ViewPar(before), ViewPar(nodes), ViewPar(Attach(cfg, nodes, d)));
  }

  lemma AttachPids(cfg: Config, nodes: View, d: DumpNode)
    requires ViewWidths(cfg, nodes) && NodeWidths(cfg, d.values)
    requires d.id in nodes || d.pid == 0 || d.pid in nodes
    ensures var after := Attach(cfg, nodes, d);
      && (forall x :: x in nodes ==> x in after && after[x].pid == nodes[x].pid)
      && (d.id !in nodes ==> d.id in after && after[d.id].pid == d.pid)
  {
  }

  lemma ExtendsTrans(a: Parents, b: Parents, c: Parents)
    requires Extends(a, b) && Extends(b, c)
    ensures Extends(a, c)
  {
  }

  lemma AttachSends(before: View, nodes: View, after: View, dump: seq<DumpNode>, d: DumpNode)
    requires dump != [] && d == dump[|dump| - 1] && NewFrom(before, nodes, dump[..|dump| - 1])
    requires after.Keys == nodes.Keys + {d.id}
    requires forall x :: x in nodes ==> after[x].pid == nodes[x].pid
    requires d.id !in nodes ==> after[d.id].pid == d.pid
    ensures NewFrom(before, after, dump)
  {
    var init := dump[..|dump| - 1];
    forall x | x in after && x !in before
      ensures Sends(dump, x, after[x].pid)
    {
      if x in nodes {
        assert Sends(init, x, nodes[x].pid);
        var k :| 0 <= k < |init| && init[k].id == x && init[k].pid == nodes[x].pid;
        assert dump[k] == init[k];
      }
    }
  }

  lemma AttachGrowsValues(cfg: Config, before: View, nodes: View, dump: seq<DumpNode>, d: DumpNode)
    requires dump != [] && d == dump[|dump| - 1] && DumpWidths(cfg, dump)
    requires GrownValues(cfg, before, nodes, dump[..|dump| - 1]) && Attachable(nodes.Keys, d)
    requires d.id in nodes || d.pid == 0 || (d.pid in nodes && d.pid != d.id)
    ensures GrownValues(cfg, before, Attach(cfg, nodes, d), dump)
  {
    AttachValues(cfg, nodes, d);
  }

  lemma AttachQuiet(cfg: Config, nodes: View, d: DumpNode)
    requires ViewWidths(cfg, nodes) && NodeWidths(cfg, d.values) && NoneRunning(nodes)
    requires d.id in nodes || d.pid == 0 || d.pid in nodes
    ensures NoneRunning(Attach(cfg, nodes, d))
  {
  }

  ghost function Flagged(nodes: View, run: Option<NodeId>, flag: bool): View {
    map x | x in nodes ::
      if run.Some? && Under(ViewPar(nodes), x, run.value) then nodes[x].(running := flag) else nodes[x]
  }

  ghost function FlaggedBetween(nodes: View, run: NodeId, id: NodeId, flag: bool): View {
    map x | x in nodes ::
      if Under(ViewPar(nodes), x, run) && !Under(ViewPar(nodes), x, id) then nodes[x].(running := flag)
      else nodes[x]
  }

  lemma WalkStep(nodes: View, run: NodeId, id: NodeId, flag: bool)
    requires WellFormed(ViewPar(nodes)) && id in nodes && Under(ViewPar(nodes), id, run)
    ensures id in FlaggedBetween(nodes, run, id, flag) && FlaggedBetween(nodes, run, id, flag)[id] == nodes[id]
    ensures FlaggedBetween(nodes, run, id, flag)[id := nodes[id].(running := flag)]
         == FlaggedBetween(nodes, run, nodes[id].pid, flag)
    ensures nodes[id].pid < id
    ensures if nodes[id].pid in nodes then Under(ViewPar(nodes), nodes[id].pid, run) else nodes[id].pid == 0
  {
    var par, up := ViewPar(nodes), nodes[id].pid;
    var a := FlaggedBetween(nodes, run, id, flag)[id := nodes[id].(running := flag)];
    var b := FlaggedBetween(nodes, run, up, flag);
    forall x | x in nodes
      ensures a[x] == b[x]
    {
      UnderParent(par, x, id);
    }
    assert a.Keys == b.Keys;
    assert Hangs(par, id);
    if up in par {
      UnderParent(par, up, id);
      UnderTrans(par, up, id, run);
    }
  }

  lemma FlaggedKeeps(nodes: View, run: Option<NodeId>, flag: bool)
    requires Linked(nodes)
    ensures var after := Flagged(nodes, run, flag);
      && ViewPar(after) == ViewPar(nodes) && ViewValues(after) == ViewValues(nodes)
      && Linked(after)
  {
    var after := Flagged(nodes, run, flag);
    assert ViewPar(after) == ViewPar(nodes) && ViewValues(after) == ViewValues(nodes);
    forall x | x in after
      ensures KidsAt(after, x)
    {
      assert KidsAt(nodes, x);
    }
  }

  ghost function OntoDump(cfg: Config, values: SliceTree, dump: seq<DumpNode>): (r: SliceTree)
    requires SliceWidths(cfg, values) && DumpWidths(cfg, dump)
    ensures SliceWidths(cfg, r)
  {
    if dump == [] then values
    else
      var last := dump[|dump| - 1];
      Onto(cfg, OntoDump(cfg, values, dump[..|dump| - 1]), map[last.id := last.values])
  }

  lemma {:induction false} OrderedAt(known: set<NodeId>, dump: seq<DumpNode>, k: nat)
    requires Ordered(known, dump) && k < |dump|
    ensures Attachable(known + DumpIds(dump[..k]), dump[k])
  {
    if k < |dump| - 1 {
      var init := dump[..|dump| - 1];
      OrderedAt(known, init, k);
      assert init[..k] == dump[..k];
    }
  }
}
