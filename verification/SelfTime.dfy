/** The self value shown for a node in real-time mode is never negative. */
module SelfTime {
  import opened Wire
  import opened Sums
  import opened Forest
  import CT = CallTree
  import opened CallTreeRuns
  import opened Nesting
  import opened StoreModel
  import opened TimeSlices
  import opened StoreRuns
  import opened Representations
  import opened Viewer
  import opened EndToEnd

  /** A node with an open call stands for a prefix of the stack. */
  lemma {:induction false} OpenIsOnStack(t: CT.ThreadState, m: NodeId, n: NodeId, stack: seq<Frame>) returns (j: nat)
    requires CT.Valid(t) && 1 <= m < |t.nodes| && OnStack(t, m, stack)
    requires n >= 2 && Under(NodePar(t.nodes), n, m)
    ensures n < |t.nodes| && j < |stack|
    ensures Path(t.nodes, n) == Names(stack[..j + 1])
    ensures Start(t, n) == stack[j].start
    decreases m
  {
    UnderOrder(NodePar(t.nodes), n, m);
    if n == m {
      j := |stack| - 1;
      assert stack[..j + 1] == stack;
      OnStackPath(t, m, stack);
      assert CT.Indexed(t, n);
    } else {
      assert CT.LinkedUp(t.nodes, m);
      var rest := stack[..|stack| - 1];
      j := OpenIsOnStack(t, t.nodes[m].parent, n, rest);
      assert rest[..j + 1] == stack[..j + 1];
    }
  }

  /** Every open call began at some time between zero and now. */
  lemma {:induction false} StartsInRange(trace: seq<Event>, j: nat)
    requires Clocked(trace) && j < |Stack(trace)|
    ensures 0 < Stack(trace)[j].start <= LastTime(trace)
  {
    var init, e := trace[..|trace| - 1], trace[|trace| - 1];
    if j < |Stack(init)| {
      StartsInRange(init, j);
    }
  }

  lemma OpenStart(cols: nat, trace: seq<Event>, n: NodeId)
    requires cols >= 2 && Clocked(trace) && 2 <= n < |Run(cols, trace).thread.nodes|
    requires Open(Run(cols, trace).thread, n)
    ensures var p := Run(cols, trace);
      && 0 < Start(p.thread, n) <= LastTime(trace)
      && LatestAmount(Stream(p), n, Column(1)) == Start(p.thread, n)
  {
    var p := Run(cols, trace);
    RunStack(cols, trace);
    var j := OpenIsOnStack(p.thread, p.thread.current, n, Stack(trace));
    StartsInRange(trace, j);
    ShownOnStack(trace, j);
    RunCounters(cols, trace, Path(p.thread.nodes, n));
    LookupPath(p.thread.nodes, n);
  }

  /** The viewer's node for `n`, with its running flag as linking leaves it. */
  ghost function ViewOf(cfg: Config, tree: Tree, run: NodeId, n: NodeId): ViewNode
    requires n in tree
  {
    ViewNode(tree[n].parent, tree[n].children, ValuesOf(cfg, tree, n), Under(Par(tree), n, run))
  }

  /** Right after a snapshot the monitor has the whole call tree. */
  lemma SameParents(cfg: Config, trace: seq<Event>)
    requires Deployed(cfg) && trace != [] && trace[|trace| - 1].SnapshotEvent?
    ensures Runnable(cfg, Stores(|cfg.meta|, trace))
    ensures Par(After(cfg, Stores(|cfg.meta|, trace)).tree) == NodePar(Run(|cfg.meta|, trace).thread.nodes)
  {
    var cols := |cfg.meta|;
    StoresRunnable(cfg, trace);
    var p := Run(cols, trace);
    RunStream(cols, trace);
    SentIsStream(cols, trace);
    forall n
      ensures n in {ROOT} + Ids(Flatten(p.flushed)) <==> 1 <= n < |p.thread.nodes|
    {
      if 1 <= n < |p.thread.nodes| {
        AllReported(cols, trace, n);
      } else if n in {ROOT} + Ids(Flatten(p.flushed)) {
        KnownIsNode(p, n);
      }
    }
    MirrorsAll(After(cfg, Stores(cols, trace)).tree, p);
  }

  lemma MirrorsAll(tree: Tree, p: Process)
    requires Mirrors(tree, p)
    requires forall n :: n in {ROOT} + Ids(Flatten(p.flushed)) <==> 1 <= n < |p.thread.nodes|
    ensures Par(tree) == NodePar(p.thread.nodes)
  {
    assert tree.Keys == {ROOT} + Ids(Flatten(p.flushed));
    forall n | n in tree
      ensures Par(tree)[n] == p.thread.nodes[n].parent
    {
      assert SameNode(tree, p.thread.nodes, n);
    }
    assert Par(tree).Keys == NodePar(p.thread.nodes).Keys;
  }

  lemma KnownIsNode(p: Process, n: NodeId)
    requires CT.Valid(p.thread) && StreamOk(Stream(p), p.thread)
    requires n in {ROOT} + Ids(Flatten(p.flushed))
    ensures 1 <= n < |p.thread.nodes|
  {
    if n != ROOT {
      var sent := Flatten(p.flushed);
      IdsAreReported(sent, n);
      var k :| 0 <= k < |sent| && sent[k].id == n;
      assert Describes(p.thread.nodes, p.thread.cols, Stream(p)[k]);
    }
  }

  /** A seen node carries its completed time and, while open, when it began; one
      that is not seen carries nothing. */
  ghost predicate Faithful(cfg: Config, tree: Tree, p: Process, n: NodeId, now: int) {
    && n in tree && Par(tree) == NodePar(p.thread.nodes)
    && |tree[n].all| == |tree[n].cld| == |cfg.meta|
    && (n in Seen(cfg, tree) ==>
          && AllAt(tree, n, 0) == Total(Stream(p), n, Column(0))
          && (Open(p.thread, n) ==> AllAt(tree, n, 1) == Start(p.thread, n) && 0 < Start(p.thread, n) <= now))
    && (n !in Seen(cfg, tree) ==> AllAt(tree, n, 0) == 0 && AllAt(tree, n, 1) == 0)
  }

  lemma AllFaithful(cfg: Config, trace: seq<Event>, n: NodeId)
    requires Deployed(cfg) && !cfg.single && Clocked(trace)
    requires trace != [] && trace[|trace| - 1].SnapshotEvent?
    requires 2 <= n < |Run(|cfg.meta|, trace).thread.nodes|
    ensures Runnable(cfg, Stores(|cfg.meta|, trace))
    ensures Faithful(cfg, After(cfg, Stores(|cfg.meta|, trace)).tree, Run(|cfg.meta|, trace), n, LastTime(trace))
  {
    var cols := |cfg.meta|;
    SameParents(cfg, trace);
    var p, tree := Run(cols, trace), After(cfg, Stores(cols, trace)).tree;
    assert n in NodePar(p.thread.nodes);
    SentIsStream(cols, trace);
    MonitorShowsSent(cfg, trace, n);
    assert ValidNode(cfg, tree, n);
    if Open(p.thread, n) {
      OpenStart(cols, trace, n);
    }
  }

  /** The time a viewer can know of. */
  ghost function KnownTime(cfg: Config, tree: Tree, p: Process, n: NodeId, now: int): int {
    if n in Seen(cfg, tree) then TimeIn(p, n, now) else 0
  }

  lemma ValueIsKnownTime(cfg: Config, tree: Tree, p: Process, n: NodeId, now: int, started: Option<seq<int>>)
    requires |cfg.meta| >= 2 && n >= 2 && Faithful(cfg, tree, p, n, now)
    requires started.Some? ==> |started.value| >= 2
    ensures ProfileValueAll(true, started, NowValues(|cfg.meta|, now), ViewOf(cfg, tree, p.thread.current, n), 0)
         == KnownTime(cfg, tree, p, n, now)
  {
  }

  /** What the viewer computes in real time as a node's value, whatever start
      reading it still has from a window, is the time spent in it by the
      snapshot, in completed calls and the open one; inside a call named like an
      attribute it computes zero. */
  lemma ValueIsTime(cfg: Config, trace: seq<Event>, log: seq<Action>, n: NodeId, started: Option<seq<int>>)
    requires started.Some? ==> |started.value| >= 2
    requires Feeds(cfg, trace, log) && !cfg.single && Clocked(trace)
    requires trace != [] && trace[|trace| - 1].SnapshotEvent?
    requires 2 <= n < |Run(|cfg.meta|, trace).thread.nodes|
    ensures var p, tree := Run(|cfg.meta|, trace), After(cfg, log).tree;
      && n in tree && NodeWidths(cfg, ValuesOf(cfg, tree, n))
      && ProfileValueAll(true, started, NowValues(|cfg.meta|, LastTime(trace)),
                         ViewOf(cfg, tree, p.thread.current, n), 0)
         == if Exposed(cfg, Path(p.thread.nodes, n)) then TimeIn(p, n, LastTime(trace)) else 0
  {
    var cols, now := |cfg.meta|, LastTime(trace);
    AllFaithful(cfg, trace, n);
    FedTree(cfg, trace, log);
    var p, tree := Run(cols, trace), After(cfg, log).tree;
    SeenIffExposed(cfg, tree, p, n);
    ValueIsKnownTime(cfg, tree, p, n, now, started);
  }

  /** No time is negative: a node's is at least its children's together. */
  lemma {:induction false} TimeNotNegative(p: Process, n: NodeId, now: int)
    requires CT.Valid(p.thread) && 2 <= n < |p.thread.nodes|
    requires forall m {:trigger Nested(p, m, now)} :: 2 <= m < |p.thread.nodes| ==> Nested(p, m, now)
    ensures TimeIn(p, n, now) >= 0
    decreases |p.thread.nodes| - n
  {
    var par, kids := NodePar(p.thread.nodes), Kids(NodePar(p.thread.nodes), n);
    NodeParWellFormed(p.thread.nodes);
    assert Nested(p, n, now);
    forall c | c in kids
      ensures Get(TimeCol(p, now), c) >= Get(map[], c)
    {
      assert Hangs(par, c);
      TimeNotNegative(p, c, now);
    }
    SumMono(kids, map[], TimeCol(p, now));
    SumZero(kids, map[]);
  }

  /** A node's children sum is what was spent in its children's completed calls,
      as far as known, which is at most what was spent in them by now. */
  lemma ChildrenAreWithin(cfg: Config, tree: Tree, p: Process, n: NodeId, now: int)
    requires WellFormed(Par(tree)) && n >= 2 && CT.Valid(p.thread)
    requires forall c {:trigger Faithful(cfg, tree, p, c, now)} :: c in tree && c >= 2 ==> Faithful(cfg, tree, p, c, now)
    requires forall m {:trigger Nested(p, m, now)} :: 2 <= m < |p.thread.nodes| ==> Nested(p, m, now)
    ensures Sum(Kids(Par(tree), n), AllCol(tree, 0)) <= Sum(Kids(Par(tree), n), TimeCol(p, now))
  {
    var kids := Kids(Par(tree), n);
    forall c | c in kids
      ensures Get(AllCol(tree, 0), c) <= Get(TimeCol(p, now), c)
    {
      assert Hangs(Par(tree), c);
      assert Faithful(cfg, tree, p, c, now);
      assert c in NodePar(p.thread.nodes);
      TimeNotNegative(p, c, now);
    }
    SumMono(kids, AllCol(tree, 0), TimeCol(p, now));
  }

  /** Nothing is known of the children of a node that is not seen. */
  lemma UnseenChildren(cfg: Config, tree: Tree, p: Process, n: NodeId, now: int)
    requires WellFormed(Par(tree)) && n in tree && n !in Seen(cfg, tree)
    requires forall c {:trigger Faithful(cfg, tree, p, c, now)} :: c in tree && c >= 2 ==> Faithful(cfg, tree, p, c, now)
    ensures Sum(Kids(Par(tree), n), AllCol(tree, 0)) == 0
  {
    var kids := Kids(Par(tree), n);
    forall c | c in kids
      ensures Get(AllCol(tree, 0), c) == 0
    {
      assert Hangs(Par(tree), c);
      assert Faithful(cfg, tree, p, c, now);
    }
    SumZero(kids, AllCol(tree, 0));
  }

  /** Self values of all nodes but the root are never negative, whatever the
      process did and whenever the snapshot was taken. */
  lemma SelfNeverNegative(cfg: Config, trace: seq<Event>, log: seq<Action>, n: NodeId, started: Option<seq<int>>)
    requires started.Some? ==> |started.value| >= 2
    requires Feeds(cfg, trace, log) && !cfg.single && Clocked(trace)
    requires trace != [] && trace[|trace| - 1].SnapshotEvent?
    requires 2 <= n < |Run(|cfg.meta|, trace).thread.nodes|
    ensures var p, tree := Run(|cfg.meta|, trace), After(cfg, log).tree;
      && n in tree && NodeWidths(cfg, ValuesOf(cfg, tree, n))
      && ProfileValueSelf(true, started, NowValues(|cfg.meta|, LastTime(trace)),
                          ViewOf(cfg, tree, p.thread.current, n), 0) >= 0
  {
    var cols, now := |cfg.meta|, LastTime(trace);
    FedTree(cfg, trace, log);
    SameParents(cfg, trace);
    var p, tree := Run(cols, trace), After(cfg, Stores(cols, trace)).tree;
    forall c | c in tree && c >= 2
      ensures Faithful(cfg, tree, p, c, now)
    {
      assert c in Par(tree);
      AllFaithful(cfg, trace, c);
    }
    forall m | 2 <= m < |p.thread.nodes|
      ensures Nested(p, m, now)
    {
      RunNested(cols, trace, m, now);
    }
    assert n in NodePar(p.thread.nodes);
    assert n in Par(tree) && Faithful(cfg, tree, p, n, now) && Nested(p, n, now);
    InclusiveTotals(cfg, Stores(cols, trace), n, 0);
    SelfAtLeastZero(cfg, tree, p, n, now, started);
  }

  lemma SelfAtLeastZero(cfg: Config, tree: Tree, p: Process, n: NodeId, now: int, started: Option<seq<int>>)
    requires started.Some? ==> |started.value| >= 2
    requires |cfg.meta| >= 2 && WellFormed(Par(tree)) && CT.Valid(p.thread) && 2 <= n < |p.thread.nodes|
    requires forall c {:trigger Faithful(cfg, tree, p, c, now)} :: c in tree && c >= 2 ==> Faithful(cfg, tree, p, c, now)
    requires forall m {:trigger Nested(p, m, now)} :: 2 <= m < |p.thread.nodes| ==> Nested(p, m, now)
    requires n in tree && CldAt(tree, n, 0) == Sum(Kids(Par(tree), n), AllCol(tree, 0))
    ensures NodeWidths(cfg, ValuesOf(cfg, tree, n))
    ensures ProfileValueSelf(true, started, NowValues(|cfg.meta|, now), ViewOf(cfg, tree, p.thread.current, n), 0) >= 0
  {
    assert Faithful(cfg, tree, p, n, now) && Nested(p, n, now);
    ValueIsKnownTime(cfg, tree, p, n, now, started);
    if n in Seen(cfg, tree) {
      ChildrenAreWithin(cfg, tree, p, n, now);
    } else {
      UnseenChildren(cfg, tree, p, n, now);
    }
  }

  // ------------------------------------------------------ what the self value is

  /** The time of the completed calls of every context, by node. */
  ghost function SpentCol(trace: seq<Event>, nodes: seq<CT.MethodNode>): map<NodeId, int>
    requires CT.ValidTree(nodes)
  {
    map n | 1 <= n < |nodes| :: Spent(trace, Path(nodes, n))
  }

  /** What the monitor shows for a child: its own completed calls, or zero if it
      or the call around it is inside one whose name begins with '#'. */
  lemma ChildShown(cfg: Config, trace: seq<Event>, log: seq<Action>, n: NodeId, c: NodeId)
    requires Feeds(cfg, trace, log) && !cfg.single
    requires trace != [] && trace[|trace| - 1].SnapshotEvent?
    requires var nodes := Run(|cfg.meta|, trace).thread.nodes; 2 <= n < c < |nodes| && nodes[c].parent == n
    ensures var nodes, tree := Run(|cfg.meta|, trace).thread.nodes, After(cfg, log).tree;
      var name := cfg.nameOf(nodes[n].name);
      AllAt(tree, c, 0)
      == if Exposed(cfg, Path(nodes, n)) && (name == "" || name[0] != '#') then Spent(trace, Path(nodes, c)) else 0
  {
    var nodes := Run(|cfg.meta|, trace).thread.nodes;
    assert CT.LinkedUp(nodes, n) && CT.LinkedUp(nodes, c);
    LookupPath(nodes, c);
    MonitorShowsCounters(cfg, trace, log, Path(nodes, c));
    ExposedMore(cfg, Path(nodes, n), nodes[c].name);
  }

  /** The totals of the children of a node, summed. */
  lemma ChildrenShown(cfg: Config, trace: seq<Event>, log: seq<Action>, n: NodeId)
    requires Feeds(cfg, trace, log) && !cfg.single
    requires trace != [] && trace[|trace| - 1].SnapshotEvent?
    requires 2 <= n < |Run(|cfg.meta|, trace).thread.nodes|
    ensures var nodes, tree := Run(|cfg.meta|, trace).thread.nodes, After(cfg, log).tree;
      var name, kids := cfg.nameOf(nodes[n].name), Kids(NodePar(nodes), n);
      Sum(kids, AllCol(tree, 0))
      == if Exposed(cfg, Path(nodes, n)) && (name == "" || name[0] != '#') then Sum(kids, SpentCol(trace, nodes)) else 0
  {
    var nodes, tree := Run(|cfg.meta|, trace).thread.nodes, After(cfg, log).tree;
    var kids, name := Kids(NodePar(nodes), n), cfg.nameOf(nodes[n].name);
    var shown := Exposed(cfg, Path(nodes, n)) && (name == "" || name[0] != '#');
    NodeParWellFormed(nodes);
    forall c | c in kids
      ensures Get(AllCol(tree, 0), c) == if shown then Get(SpentCol(trace, nodes), c) else 0
    {
      assert Hangs(NodePar(nodes), c);
      ChildShown(cfg, trace, log, n, c);
    }
    if shown {
      SumSame(kids, AllCol(tree, 0), SpentCol(trace, nodes));
    } else {
      SumZero(kids, AllCol(tree, 0));
    }
  }

  /** The self value in real time is the time spent in the node less what was
      spent in completed calls of its children; zero inside a call whose name
      begins with '#', and nothing is taken off for the children of such a call. */
  lemma SelfIsTime(cfg: Config, trace: seq<Event>, log: seq<Action>, n: NodeId, started: Option<seq<int>>)
    requires started.Some? ==> |started.value| >= 2
    requires Feeds(cfg, trace, log) && !cfg.single && Clocked(trace)
    requires trace != [] && trace[|trace| - 1].SnapshotEvent?
    requires 2 <= n < |Run(|cfg.meta|, trace).thread.nodes|
    ensures var p, tree := Run(|cfg.meta|, trace), After(cfg, log).tree;
      var name, nodes, shown := cfg.nameOf(p.thread.nodes[n].name), p.thread.nodes, Exposed(cfg, Path(p.thread.nodes, n));
      && n in tree && NodeWidths(cfg, ValuesOf(cfg, tree, n))
      && ProfileValueSelf(true, started, NowValues(|cfg.meta|, LastTime(trace)),
                          ViewOf(cfg, tree, p.thread.current, n), 0)
         == (if shown then TimeIn(p, n, LastTime(trace)) else 0)
            - if shown && (name == "" || name[0] != '#') then Sum(Kids(NodePar(nodes), n), SpentCol(trace, nodes)) else 0
  {
    ValueIsTime(cfg, trace, log, n, started);
    ChildrenShown(cfg, trace, log, n);
    FedTree(cfg, trace, log);
    SameParents(cfg, trace);
    InclusiveTotals(cfg, log, n, 0);
  }

  // --------------------------------------------------------------------- the root

  /** No buffer of a run has a record for the root. */
  ghost predicate NoRootRecords(run: seq<Action>) {
    forall k {:trigger run[k]} :: 0 <= k < |run| && run[k].Put? ==> Latest(run[k].recs, ROOT).None?
  }

  lemma {:induction false} RootUntouched(cfg: Config, run: seq<Action>)
    requires Deployed(cfg) && Runnable(cfg, run) && !cfg.single && NoRootRecords(run)
    ensures var t := After(cfg, run).tree; ROOT in t && AllAt(t, ROOT, 0) == 0 && AllAt(t, ROOT, 1) == 0
  {
    var t := After(cfg, run).tree;
    assert ROOT in Par(t);
    InclusiveTotals(cfg, run, ROOT, 0);
    StaticTotals(cfg, run, ROOT, 1);
    NoneReceived(run);
  }

  lemma {:induction false} NoneReceived(run: seq<Action>)
    requires NoRootRecords(run)
    ensures Received(run, ROOT, Column(0)) == 0 && LastReceived(run, ROOT, Column(1)) == 0
  {
    if run != [] {
      var init := run[..|run| - 1];
      assert NoRootRecords(init) by {
        assert forall k :: 0 <= k < |init| ==> init[k] == run[k];
      }
      NoneReceived(init);
      assert run[|run| - 1].Put? ==> Latest(run[|run| - 1].recs, ROOT).None?;
    }
  }

  lemma {:induction false} SentRootless(cols: nat, trace: seq<Event>)
    requires cols >= 2
    ensures NoRootRecords(Stores(cols, trace))
  {
    if trace != [] {
      var init, e := trace[..|trace| - 1], trace[|trace| - 1];
      SentRootless(cols, init);
      if e.SnapshotEvent? {
        CT.GenerationIffRecord(Run(cols, init).thread, ROOT);
        var front := Run(cols, init).thread.front;
        assert Latest(front, ROOT).None?;
      }
    }
  }

  lemma {:induction false} SameRootless(a: seq<Action>, b: seq<Action>)
    requires Deliveries(a) == Deliveries(b) && NoRootRecords(b)
    ensures NoRootRecords(a)
    decreases |a| + |b|
  {
    if a != [] && !a[|a| - 1].Put? {
      SameRootless(a[..|a| - 1], b);
      assert forall k :: 0 <= k < |a| - 1 ==> a[..|a| - 1][k] == a[k];
    } else if b != [] && !b[|b| - 1].Put? {
      assert forall k :: 0 <= k < |b| - 1 ==> b[..|b| - 1][k] == b[k];
      SameRootless(a, b[..|b| - 1]);
    } else if a != [] && b != [] {
      LastDelivery(a, b);
      assert forall k :: 0 <= k < |b| - 1 ==> b[..|b| - 1][k] == b[k];
      SameRootless(a[..|a| - 1], b[..|b| - 1]);
      assert forall k :: 0 <= k < |a| - 1 ==> a[..|a| - 1][k] == a[k];
    } else if a != [] {
      assert false;
    }
  }

  /** The root is never called, so it shows no time; and as its children's time is
      taken off all the same, its self value is below zero from the first call
      completed at the top on. */
  lemma RootShown(cfg: Config, trace: seq<Event>, log: seq<Action>, started: Option<seq<int>>)
    requires started.Some? ==> |started.value| >= 2
    requires Feeds(cfg, trace, log) && !cfg.single
    requires trace != [] && trace[|trace| - 1].SnapshotEvent?
    ensures var p, tree := Run(|cfg.meta|, trace), After(cfg, log).tree;
      && ROOT in tree && NodeWidths(cfg, ValuesOf(cfg, tree, ROOT))
      && var node := ViewOf(cfg, tree, p.thread.current, ROOT);
         var now := NowValues(|cfg.meta|, LastTime(trace));
      && ProfileValueAll(true, started, now, node, 0) == 0
      && ProfileValueSelf(true, started, now, node, 0)
         == -Sum(Kids(NodePar(p.thread.nodes), ROOT), SpentCol(trace, p.thread.nodes))
  {
    SentRootless(|cfg.meta|, trace);
    SameRootless(log, Stores(|cfg.meta|, trace));
    RootUntouched(cfg, log);
    RepresentationsAgree(cfg, log, ROOT);
    InclusiveTotals(cfg, log, ROOT, 0);
    TopShown(cfg, trace, log);
    FedTree(cfg, trace, log);
    SameParents(cfg, trace);
  }

  lemma TopShown(cfg: Config, trace: seq<Event>, log: seq<Action>)
    requires Feeds(cfg, trace, log) && !cfg.single
    requires trace != [] && trace[|trace| - 1].SnapshotEvent?
    ensures var nodes, tree := Run(|cfg.meta|, trace).thread.nodes, After(cfg, log).tree;
      var kids := Kids(NodePar(nodes), ROOT);
      Sum(kids, AllCol(tree, 0)) == Sum(kids, SpentCol(trace, nodes))
  {
    var nodes, tree := Run(|cfg.meta|, trace).thread.nodes, After(cfg, log).tree;
    var kids := Kids(NodePar(nodes), ROOT);
    NodeParWellFormed(nodes);
    forall c | c in kids
      ensures Get(AllCol(tree, 0), c) == Get(SpentCol(trace, nodes), c)
    {
      assert Hangs(NodePar(nodes), c) && c != ROOT;
      assert Path(nodes, ROOT) == [] && |Path(nodes, c)| == 1;
      LookupPath(nodes, c);
      MonitorShowsCounters(cfg, trace, log, Path(nodes, c));
    }
    SumSame(kids, AllCol(tree, 0), SpentCol(trace, nodes));
  }

  // ------------------------------------------------------------- other columns

  /** In every column but the first the viewer shows what the monitor holds,
      whether in real time or for a window: in a static column the last value
      received, in an inclusive one the sum of those received for the node, in
      any other that over the subtree; and the self value is what the children's
      totals leave of it. */
  lemma ColumnShown(
    cfg: Config, run: seq<Action>, x: NodeId, i: nat,
    realTime: bool, startValues: Option<seq<int>>, nowValues: seq<int>, ran: NodeId)
    requires Runnable(cfg, run) && !cfg.single && x in After(cfg, run).tree && 1 <= i < |cfg.meta|
    requires |nowValues| >= 2 && (startValues.Some? ==> |startValues.value| >= 2)
    ensures var tree := After(cfg, run).tree;
      var node, seen := ViewOf(cfg, tree, ran, x), Seen(cfg, tree);
      && NodeWidths(cfg, node.values)
      && var value := ProfileValueAll(realTime, startValues, nowValues, node, i);
         var self := ProfileValueSelf(realTime, startValues, nowValues, node, i);
      if cfg.meta[i].isStatic then
        value == (if x in seen then LastReceived(run, x, Column(i)) else 0) && self == value
      else
        && value == (if cfg.meta[i].accumulated then (if x in seen then Received(run, x, Column(i)) else 0)
                     else Sum(Subtree(Par(tree), x), ReceivedCol(seen, run, Column(i))))
        && self + Sum(Kids(Par(tree), x), AllCol(tree, i)) == value
  {
    RepresentationsAgree(cfg, run, x);
    if cfg.meta[i].isStatic {
      StaticTotals(cfg, run, x, i);
    } else {
      InclusiveTotals(cfg, run, x, i);
    }
  }

  /** A profiled thread fills the first two columns only: the others show zero. */
  lemma EventColumnsShown(cfg: Config, trace: seq<Event>, log: seq<Action>, n: NodeId, i: nat)
    requires Feeds(cfg, trace, log) && !cfg.single && n in After(cfg, log).tree && 2 <= i < |cfg.meta|
    ensures AllAt(After(cfg, log).tree, n, i) == 0 && CldAt(After(cfg, log).tree, n, i) == 0
  {
    var tree := After(cfg, log).tree;
    NothingReceived(cfg, trace, log, i);
    InclusiveTotals(cfg, log, n, i);
    SumZero(Subtree(Par(tree), n), ReceivedCol(Seen(cfg, tree), log, Column(i)));
    forall c | c in Kids(Par(tree), n)
      ensures Get(AllCol(tree, i), c) == 0
    {
      InclusiveTotals(cfg, log, c, i);
      SumZero(Subtree(Par(tree), c), ReceivedCol(Seen(cfg, tree), log, Column(i)));
    }
    SumZero(Kids(Par(tree), n), AllCol(tree, i));
  }

  lemma NothingReceived(cfg: Config, trace: seq<Event>, log: seq<Action>, i: nat)
    requires Feeds(cfg, trace, log) && 2 <= i < |cfg.meta|
    ensures forall x :: Received(log, x, Column(i)) == 0
  {
    RunOthers(|cfg.meta|, trace);
    forall x
      ensures Received(log, x, Column(i)) == 0
    {
      SameDeliveriesSameReceived(log, Stores(|cfg.meta|, trace), x, Column(i));
      ReceivedIsSent(cfg, trace, x, Column(i));
      NoTotal(Flatten(Run(|cfg.meta|, trace).flushed), x, i);
    }
  }

  lemma {:induction false} NoTotal(recs: seq<Record>, x: NodeId, i: nat)
    requires AllOthersZero(recs) && i >= 2
    ensures Total(recs, x, Column(i)) == 0
  {
    if recs != [] {
      assert OthersZero(recs[|recs| - 1]);
      assert AllOthersZero(recs[..|recs| - 1]);
      NoTotal(recs[..|recs| - 1], x, i);
    }
  }
}
