/** Profiled thread and monitor together: every snapshot is stored. */
module EndToEnd {
  import opened Wire
  import opened Sums
  import opened Forest
  import CT = CallTree
  import opened CallTreeRuns
  import opened StoreModel
  import opened TimeSlices
  import opened StoreRuns
  import opened Representations

  /** The column layout of a target that counts time: the time itself, its start
      value, and event columns. */
  ghost predicate Deployed(cfg: Config) {
    && |cfg.meta| >= 2
    && cfg.meta[0] == Metadata(true, false)
    && cfg.meta[1] == Metadata(false, true)
    && forall i :: 2 <= i < |cfg.meta| ==> cfg.meta[i] == Metadata(false, false)
  }

  function NowValues(cols: nat, now: int): seq<int> {
    seq(cols, i => if i == 1 then now else 0)
  }

  /** The stores that the snapshots of a trace lead to, at times 1, 2, 3, ... */
  ghost function Stores(cols: nat, trace: seq<Event>): seq<Action>
    requires cols >= 2
  {
    if trace == [] then []
    else
      var init, e := trace[..|trace| - 1], trace[|trace| - 1];
      if !e.SnapshotEvent? then Stores(cols, init)
      else
        Stores(cols, init) + [Handed(cols, Run(cols, init).thread, e.now, |Stores(cols, init)| + 1)]
  }

  ghost function Handed(cols: nat, t: CT.ThreadState, now: int, time: int): Action {
    Put(time, t.front, NowInfo(t.current, NowValues(cols, now)))
  }

  /** The monitor's tree is the part of the call tree reported so far. */
  ghost predicate Mirrors(tree: Tree, p: Process) {
    && tree.Keys == {ROOT} + Ids(Flatten(p.flushed))
    && forall n {:trigger SameNode(tree, p.thread.nodes, n)} :: n in tree ==> SameNode(tree, p.thread.nodes, n)
  }

  ghost predicate SameNode(tree: Tree, nodes: seq<CT.MethodNode>, n: NodeId)
    requires n in tree
  {
    n < |nodes| && tree[n].parent == nodes[n].parent && tree[n].name == nodes[n].name
  }

  /** `s` is the monitor's state after `n` stores. */
  ghost predicate InStep(s: State, n: nat) {
    s.filled == |s.slices| == n && (n > 0 ==> s.start == 1)
  }

  lemma {:induction false} IdsAppend(a: seq<Record>, b: seq<Record>)
    ensures Ids(a + b) == Ids(a) + Ids(b)
  {
    if b == [] {
      assert a + b == a;
    } else {
      assert (a + b)[..|a + b| - 1] == a + b[..|b| - 1];
      IdsAppend(a, b[..|b| - 1]);
    }
  }

  /** What the producer guarantees is what storing the buffer needs. */
  lemma FrontFits(cfg: Config, p: Process, tree: Tree)
    requires CT.Valid(p.thread) && p.thread.cols == |cfg.meta|
    requires StreamOk(Stream(p), p.thread) && Mirrors(tree, p)
    ensures Fits(cfg, tree, p.thread.front)
  {
    var sent, front, s := Flatten(p.flushed), p.thread.front, Stream(p);
    forall k | 0 <= k < |front|
      ensures StorableAt(tree.Keys, front, k)
      ensures |front[k].values| == |cfg.meta|
    {
      assert CT.Owned(p.thread, k);
      assert s[|sent| + k] == front[k];
      assert Introduced(s, |sent| + k);
      if front[k].parent != ROOT {
        var j :| 0 <= j < |sent| + k && s[j].id == front[k].parent;
        if j < |sent| {
          IdsAreReported(sent, front[k].parent);
          assert sent[j].id == front[k].parent;
        } else {
          IdsAreReported(front[..k], front[k].parent);
          assert front[..k][j - |sent|].id == front[k].parent;
        }
      }
    }
  }

  /** After storing the front buffer the monitor mirrors the process again. */
  lemma StoreMirrors(cfg: Config, p: Process, tree: Tree, e: Event, run: NodeId)
    requires CT.Valid(p.thread) && p.thread.cols == |cfg.meta| && e.SnapshotEvent?
    requires Mirrors(tree, p) && Good(cfg, tree) && Fits(cfg, tree, p.thread.front)
    ensures Mirrors(StoreTree(cfg, tree, run, p.thread.front), Step(p, e))
  {
    StoreKeys(cfg, p, tree, e, run);
    forall n | n in StoreTree(cfg, tree, run, p.thread.front)
      ensures SameNode(StoreTree(cfg, tree, run, p.thread.front), Step(p, e).thread.nodes, n)
    {
      StoreMirrorsAt(cfg, p, tree, run, n);
    }
  }

  lemma StoreKeys(cfg: Config, p: Process, tree: Tree, e: Event, run: NodeId)
    requires CT.Valid(p.thread) && e.SnapshotEvent?
    requires Mirrors(tree, p) && Good(cfg, tree) && Fits(cfg, tree, p.thread.front)
    ensures StoreTree(cfg, tree, run, p.thread.front).Keys == {ROOT} + Ids(Flatten(Step(p, e).flushed))
    ensures Step(p, e).thread.nodes == p.thread.nodes
  {
    StoreExtends(cfg, tree, run, p.thread.front);
    SentIds(p, e);
  }

  lemma StoreMirrorsAt(cfg: Config, p: Process, tree: Tree, run: NodeId, n: NodeId)
    requires CT.Valid(p.thread) && p.thread.cols == |cfg.meta| && Mirrors(tree, p)
    requires Good(cfg, tree) && Fits(cfg, tree, p.thread.front)
    requires n in StoreTree(cfg, tree, run, p.thread.front)
    ensures SameNode(StoreTree(cfg, tree, run, p.thread.front), p.thread.nodes, n)
  {
    StoreIdentity(cfg, tree, run, p.thread.front, n);
    NewNodeMirrors(p.thread, n);
    assert n in tree ==> SameNode(tree, p.thread.nodes, n);
  }

  lemma SentIds(p: Process, e: Event)
    requires CT.Valid(p.thread) && e.SnapshotEvent?
    ensures Ids(Flatten(Step(p, e).flushed)) == Ids(Flatten(p.flushed)) + Ids(p.thread.front)
    ensures Step(p, e).thread.nodes == p.thread.nodes
  {
    var bufs := p.flushed + [p.thread.front];
    assert bufs[..|bufs| - 1] == p.flushed;
    IdsAppend(Flatten(p.flushed), p.thread.front);
  }

  lemma NewNodeMirrors(t: CT.ThreadState, n: NodeId)
    requires CT.Valid(t)
    ensures forall k :: 0 <= k < |t.front| && t.front[k].id == n ==>
      n < |t.nodes| && t.front[k].parent == t.nodes[n].parent && t.front[k].name == t.nodes[n].name
  {
    forall k | 0 <= k < |t.front|
      ensures CT.Owned(t, k)
    {
    }
    forall k | 0 <= k < |t.front| && t.front[k].id == n
      ensures n < |t.nodes| && t.front[k].parent == t.nodes[n].parent && t.front[k].name == t.nodes[n].name
    {
      assert CT.Owned(t, k);
    }
  }

  /** Old nodes keep parent and name; new ones take them from a record. */
  lemma StoreIdentity(cfg: Config, tree: Tree, run: NodeId, recs: seq<Record>, n: NodeId)
    requires Good(cfg, tree) && Fits(cfg, tree, recs)
    requires n in StoreTree(cfg, tree, run, recs)
    ensures var t := StoreTree(cfg, tree, run, recs);
      if n in tree then t[n].parent == tree[n].parent && t[n].name == tree[n].name
      else exists k :: 0 <= k < |recs| && recs[k].id == n && t[n].parent == recs[k].parent && t[n].name == recs[k].name
  {
    AddedIdentity(cfg, tree, recs, n);
    StagedValid(cfg, tree, run, recs);
    assert Staged(cfg, tree, run, recs)[n].name == AddAll(cfg, tree, recs)[n].name;
    SettleValid(cfg, Staged(cfg, tree, run, recs), Collected(cfg, Staged(cfg, tree, run, recs)));
  }

  lemma {:induction false} AddedIdentity(cfg: Config, tree: Tree, recs: seq<Record>, n: NodeId)
    requires Storable(tree.Keys, recs) && n in AddAll(cfg, tree, recs)
    ensures var t := AddAll(cfg, tree, recs);
      if n in tree then t[n].parent == tree[n].parent && t[n].name == tree[n].name
      else exists k :: 0 <= k < |recs| && recs[k].id == n && t[n].parent == recs[k].parent && t[n].name == recs[k].name
  {
    if recs != [] {
      var init := recs[..|recs| - 1];
      StorablePrefix(tree.Keys, recs);
      StorableLast(tree.Keys, recs);
      var u, t := AddAll(cfg, tree, init), AddAll(cfg, tree, recs);
      if n in u {
        AddedIdentity(cfg, tree, init, n);
        assert t[n].parent == u[n].parent && t[n].name == u[n].name;
        if n !in tree {
          var k :| 0 <= k < |init| && init[k].id == n && u[n].parent == init[k].parent && u[n].name == init[k].name;
          assert recs[k] == init[k];
        }
      } else {
        assert recs[|recs| - 1].id == n;
      }
    }
  }

  /** Every buffer a process hands out can be stored, at every point of every run. */
  lemma {:induction false} StoresRunnable(cfg: Config, trace: seq<Event>)
    requires Deployed(cfg)
    ensures Runnable(cfg, Stores(|cfg.meta|, trace))
    ensures Mirrors(After(cfg, Stores(|cfg.meta|, trace)).tree, Run(|cfg.meta|, trace))
    ensures InStep(After(cfg, Stores(|cfg.meta|, trace)), |Stores(|cfg.meta|, trace)|)
  {
    var cols := |cfg.meta|;
    if trace != [] {
      var init, e := trace[..|trace| - 1], trace[|trace| - 1];
      StoresRunnable(cfg, init);
      RunStream(cols, init);
      RunStack(cols, init);
      var p, run := Run(cols, init), Stores(cols, init);
      var s := After(cfg, run);
      match e
      case CallEvent(name, now) =>
        CallShape(p.thread, name, now);
        MirrorsGrown(s.tree, p, Run(cols, trace));
      case ReturnEvent(now) =>
        if p.thread.current != ROOT {
          ReturnShape(p.thread, now);
        }
        MirrorsGrown(s.tree, p, Run(cols, trace));
      case SnapshotEvent(_) =>
        SnapshotRunnable(cfg, trace, init, e);
    }
  }

  lemma SnapshotRunnable(cfg: Config, trace: seq<Event>, init: seq<Event>, e: Event)
    requires Deployed(cfg) && trace != [] && init == trace[..|trace| - 1] && e == trace[|trace| - 1]
    requires e.SnapshotEvent?
    requires Runnable(cfg, Stores(|cfg.meta|, init))
    requires Mirrors(After(cfg, Stores(|cfg.meta|, init)).tree, Run(|cfg.meta|, init))
    requires InStep(After(cfg, Stores(|cfg.meta|, init)), |Stores(|cfg.meta|, init)|)
    ensures Runnable(cfg, Stores(|cfg.meta|, trace))
    ensures Mirrors(After(cfg, Stores(|cfg.meta|, trace)).tree, Run(|cfg.meta|, trace))
    ensures InStep(After(cfg, Stores(|cfg.meta|, trace)), |Stores(|cfg.meta|, trace)|)
  {
    var cols := |cfg.meta|;
    var p, run := Run(cols, init), Stores(cols, init);
    var s, a := After(cfg, run), Handed(cols, p.thread, e.now, |run| + 1);
    RunStream(cols, init);
    RunStack(cols, init);
    HandedOver(cfg, p, s, |run|, e, a);
    AfterOneMore(cfg, run, a);
  }

  lemma HandedOver(cfg: Config, p: Process, s: State, n: nat, e: Event, a: Action)
    requires CT.Valid(p.thread) && p.thread.cols == |cfg.meta| && StreamOk(Stream(p), p.thread)
    requires Sound(cfg, s) && Mirrors(s.tree, p) && InStep(s, n)
    requires e.SnapshotEvent? && a == Handed(|cfg.meta|, p.thread, e.now, n + 1)
    ensures Enabled(cfg, s, a)
    ensures InStep(Act(cfg, s, a), n + 1) && Mirrors(Act(cfg, s, a).tree, Step(p, e))
  {
    FrontFits(cfg, p, s.tree);
    PutInStep(cfg, s, n, a);
    StoreMirrors(cfg, p, s.tree, e, p.thread.current);
  }

  lemma AfterOneMore(cfg: Config, run: seq<Action>, a: Action)
    requires Runnable(cfg, run) && Enabled(cfg, After(cfg, run), a)
    ensures Runnable(cfg, run + [a]) && After(cfg, run + [a]) == Act(cfg, After(cfg, run), a)
  {
    var more := run + [a];
    assert more[..|more| - 1] == run;
  }

  lemma PutInStep(cfg: Config, s: State, n: nat, a: Action)
    requires Sound(cfg, s) && InStep(s, n) && a.Put? && a.time == n + 1 && Fits(cfg, s.tree, a.recs)
    ensures Enabled(cfg, s, a) && InStep(Act(cfg, s, a), n + 1)
    ensures Act(cfg, s, a).tree == StoreTree(cfg, s.tree, a.ni.running, a.recs)
  {
  }

  lemma MirrorsGrown(tree: Tree, p: Process, q: Process)
    requires CT.Valid(p.thread) && CT.Valid(q.thread) && Mirrors(tree, p) && q.flushed == p.flushed
    requires SameShape(p.thread.nodes, q.thread.nodes)
    requires StreamOk(Stream(p), p.thread)
    ensures Mirrors(tree, q)
  {
    forall n | n in tree
      ensures SameNode(tree, q.thread.nodes, n)
    {
      assert SameNode(tree, p.thread.nodes, n);
      if n != ROOT {
        IdsAreReported(Flatten(p.flushed), n);
        var k :| 0 <= k < |Flatten(p.flushed)| && Flatten(p.flushed)[k].id == n;
        assert Describes(p.thread.nodes, p.thread.cols, Stream(p)[k]);
      }
    }
  }

  // -------------------------------------------- what the monitor has received

  /** The buffers handed out are exactly the buffers stored. */
  lemma {:induction false} ReceivedIsSent(cfg: Config, trace: seq<Event>, n: NodeId, m: Measure)
    requires Deployed(cfg)
    ensures var sent, run := Flatten(Run(|cfg.meta|, trace).flushed), Stores(|cfg.meta|, trace);
      Received(run, n, m) == Total(sent, n, m) && LastReceived(run, n, m) == LatestAmount(sent, n, m)
  {
    var cols := |cfg.meta|;
    if trace != [] {
      var init, e := trace[..|trace| - 1], trace[|trace| - 1];
      ReceivedIsSent(cfg, init, n, m);
      if e.SnapshotEvent? {
        var p, run := Run(cols, init), Stores(cols, init);
        var front, bufs := p.thread.front, p.flushed + [p.thread.front];
        assert bufs[..|bufs| - 1] == p.flushed;
        assert Stores(cols, trace)[..|run|] == run;
        CT.GenerationIffRecord(p.thread, ROOT);
        TotalIsLatest(front, n, m);
        TotalAppend(Flatten(p.flushed), front, n, m);
        LatestAppend(Flatten(p.flushed), front, n);
      }
    }
  }

  /** Between the end of a trace and its last snapshot nothing has happened. */
  predicate Ended(trace: seq<Event>) {
    trace == [] || trace[|trace| - 1].SnapshotEvent?
  }

  /** The buffers stored are those that a profiled thread handed out, at whatever
      times, and with any look-ups in between. */
  ghost predicate Feeds(cfg: Config, trace: seq<Event>, log: seq<Action>) {
    && Deployed(cfg) && Runnable(cfg, log)
    && Deliveries(log) == Deliveries(Stores(|cfg.meta|, trace))
  }

  lemma FedTree(cfg: Config, trace: seq<Event>, log: seq<Action>)
    requires Feeds(cfg, trace, log)
    ensures Runnable(cfg, Stores(|cfg.meta|, trace))
    ensures After(cfg, log).tree == After(cfg, Stores(|cfg.meta|, trace)).tree
    ensures Mirrors(After(cfg, log).tree, Run(|cfg.meta|, trace))
  {
    StoresRunnable(cfg, trace);
    SameDeliveriesSameTree(cfg, log, Stores(|cfg.meta|, trace));
  }

  /** So whenever the thread's buffer is handed out next, it can be stored. */
  lemma NextFits(cfg: Config, trace: seq<Event>, log: seq<Action>)
    requires Feeds(cfg, trace, log)
    ensures Fits(cfg, After(cfg, log).tree, Run(|cfg.meta|, trace).thread.front)
  {
    FedTree(cfg, trace, log);
    RunStream(|cfg.meta|, trace);
    RunStack(|cfg.meta|, trace);
    FrontFits(cfg, Run(|cfg.meta|, trace), After(cfg, log).tree);
  }

  /** What the monitor shows for one context. */
  ghost predicate Reports(cfg: Config, tree: Tree, n: NodeId, calls: int, spent: int, shown: int) {
    && CountAt(tree, n) == calls
    && (!cfg.single ==> AllAt(tree, n, 0) == spent && AllAt(tree, n, 1) == shown)
  }

  /** The monitor's totals are those of the records sent, whenever it is asked,
      for the nodes that are seen; the others stay at zero. */
  lemma MonitorShowsSent(cfg: Config, trace: seq<Event>, n: NodeId)
    requires Deployed(cfg) && Runnable(cfg, Stores(|cfg.meta|, trace))
    requires n in After(cfg, Stores(|cfg.meta|, trace)).tree
    ensures var tree, sent := After(cfg, Stores(|cfg.meta|, trace)).tree, Flatten(Run(|cfg.meta|, trace).flushed);
      if n in Seen(cfg, tree) then
        Reports(cfg, tree, n, Total(sent, n, CallCount), Total(sent, n, Column(0)), LatestAmount(sent, n, Column(1)))
      else Reports(cfg, tree, n, 0, 0, 0)
  {
    var run := Stores(|cfg.meta|, trace);
    ReceivedIsSent(cfg, trace, n, CallCount);
    CountTotals(cfg, run, n);
    if !cfg.single {
      ReceivedIsSent(cfg, trace, n, Column(0));
      ReceivedIsSent(cfg, trace, n, Column(1));
      InclusiveTotals(cfg, run, n, 0);
      StaticTotals(cfg, run, n, 1);
    }
  }

  /** No call of `q` but the last has a name that begins with '#'. */
  predicate Exposed(cfg: Config, q: Context) {
    forall j :: 0 <= j < |q| - 1 ==> cfg.nameOf(q[j]) == "" || cfg.nameOf(q[j])[0] != '#'
  }

  lemma ExposedMore(cfg: Config, q: Context, name: NameId)
    ensures Exposed(cfg, q + [name]) <==> Exposed(cfg, q) && (q != [] ==> !AttrName(cfg, q[|q| - 1]))
  {
    var more := q + [name];
    forall j | 0 <= j < |q|
      ensures more[j] == q[j]
    {
    }
    if Exposed(cfg, more) && q != [] {
      assert !AttrName(cfg, more[|q| - 1]);
    }
    assert |more| - 1 == |q|;
  }

  /** The nodes clearing gets to are those whose context is exposed. */
  lemma {:induction false} SeenIffExposed(cfg: Config, tree: Tree, p: Process, n: NodeId)
    requires CT.Valid(p.thread) && Mirrors(tree, p) && WellFormed(Par(tree)) && n in tree
    ensures 1 <= n < |p.thread.nodes|
    ensures n in Seen(cfg, tree) <==> Exposed(cfg, Path(p.thread.nodes, n))
    decreases n
  {
    var par, nodes := Par(tree), p.thread.nodes;
    assert n in par && Hangs(par, n) && SameNode(tree, nodes, n);
    if n != ROOT {
      var up := tree[n].parent;
      assert CT.LinkedUp(nodes, n) && SameNode(tree, nodes, up);
      SeenIffExposed(cfg, tree, p, up);
      ExposedMore(cfg, Path(nodes, up), nodes[n].name);
    }
  }

  /** End to end: right after a snapshot has been stored, the monitor shows for
      every exposed context exactly its number of calls, the summed durations of its
      completed calls, and its reported start time; for a context inside a call
      named like an attribute it shows zeros; contexts without a node were never
      called. */
  lemma MonitorShowsCounters(cfg: Config, trace: seq<Event>, log: seq<Action>, q: Context)
    requires Feeds(cfg, trace, log)
    requires trace != [] && trace[|trace| - 1].SnapshotEvent?
    ensures var nodes, tree := Run(|cfg.meta|, trace).thread.nodes, After(cfg, log).tree;
      match Lookup(nodes, q)
      case None => Calls(trace, q) == 0 && Spent(trace, q) == 0 && Shown(trace, q) == 0
      case Some(n) =>
        n in tree && if Exposed(cfg, q) then Reports(cfg, tree, n, Calls(trace, q), Spent(trace, q), Shown(trace, q))
                     else Reports(cfg, tree, n, 0, 0, 0)
  {
    var cols := |cfg.meta|;
    FedTree(cfg, trace, log);
    RunCounters(cols, trace, q);
    var p, tree := Run(cols, trace), After(cfg, log).tree;
    if Lookup(p.thread.nodes, q).Some? {
      var n := Lookup(p.thread.nodes, q).value;
      AllReported(cols, trace, n);
      SentIsStream(cols, trace);
      MonitorShowsSent(cfg, trace, n);
      PathLookup(p.thread.nodes, q);
      SeenIffExposed(cfg, tree, p, n);
    }
  }

  /** In particular, a context none of whose outer calls has a name that begins
      with '#' shows its own counters. */
  lemma OrdinaryNamesShown(cfg: Config, trace: seq<Event>, log: seq<Action>, q: Context)
    requires Feeds(cfg, trace, log) && Calls(trace, q) > 0
    requires trace != [] && trace[|trace| - 1].SnapshotEvent?
    requires forall j :: 0 <= j < |q| - 1 ==> cfg.nameOf(q[j]) == "" || cfg.nameOf(q[j])[0] != '#'
    ensures var n, tree := Lookup(Run(|cfg.meta|, trace).thread.nodes, q), After(cfg, log).tree;
      && n.Some? && n.value in tree && tree[n.value].callCount == Calls(trace, q)
      && (!cfg.single ==>
            && |tree[n.value].all| == |cfg.meta|
            && tree[n.value].all[0] == Spent(trace, q) && tree[n.value].all[1] == Shown(trace, q))
  {
    MonitorShowsCounters(cfg, trace, log, q);
    var n, tree := Lookup(Run(|cfg.meta|, trace).thread.nodes, q), After(cfg, log).tree;
    assert ValidNode(cfg, tree, n.value);
  }

  /** The loss is real: a call made inside an attribute-named one is counted by
      the profiled thread, and shown as never made. */
  lemma CallLost(cfg: Config, a: NameId, b: NameId, now: int)
    requires Deployed(cfg) && cfg.nameOf(a) != "" && cfg.nameOf(a)[0] == '#'
    ensures var trace := [CallEvent(a, now), CallEvent(b, now), ReturnEvent(now), ReturnEvent(now), SnapshotEvent(now)];
      && Calls(trace, [a, b]) == 1
      && Runnable(cfg, Stores(|cfg.meta|, trace))
      && var n := Lookup(Run(|cfg.meta|, trace).thread.nodes, [a, b]);
      && n.Some? && CountAt(After(cfg, Stores(|cfg.meta|, trace)).tree, n.value) == 0
  {
    var trace := [CallEvent(a, now), CallEvent(b, now), ReturnEvent(now), ReturnEvent(now), SnapshotEvent(now)];
    CountedOnce(a, b, now);
    assert [a, b][0] == a;
    StoresRunnable(cfg, trace);
    MonitorShowsCounters(cfg, trace, Stores(|cfg.meta|, trace), [a, b]);
  }

  lemma CountedOnce(a: NameId, b: NameId, now: int)
    ensures Calls([CallEvent(a, now), CallEvent(b, now), ReturnEvent(now), ReturnEvent(now), SnapshotEvent(now)], [a, b])
         == 1
  {
    var e, f, g := CallEvent(a, now), CallEvent(b, now), ReturnEvent(now);
    var trace := [e, f, g, g, SnapshotEvent(now)];
    assert trace[..4] == [e, f, g, g] && [e, f, g, g][..3] == [e, f, g] && [e, f, g][..2] == [e, f];
    assert [e, f][..1] == [e] && [e][..0] == [];
    assert Stack([e]) == [Frame(a, now, 0)];
    assert Names(Stack([e])) == [a];
    assert Names(Stack([])) == [];
    assert Calls([e], [a, b]) == 0;
    assert Calls([e, f], [a, b]) == 1;
    assert Calls([e, f, g], [a, b]) == 1;
    assert Calls([e, f, g, g], [a, b]) == 1;
  }

  /** Each snapshot finds something to mark: the running node, or a new record. */
  lemma StoresMark(cfg: Config, trace: seq<Event>)
    requires Deployed(cfg)
    requires trace != [] && trace[|trace| - 1].SnapshotEvent?
    ensures Runnable(cfg, Stores(|cfg.meta|, trace)) && MarkedSome(cfg, Stores(|cfg.meta|, trace))
  {
    var cols, init := |cfg.meta|, trace[..|trace| - 1];
    StoresRunnable(cfg, trace);
    StoresRunnable(cfg, init);
    CurrentMarks(cfg, init, After(cfg, Stores(cols, init)).tree);
    LastStore(cols, trace);
  }

  lemma LastStore(cols: nat, trace: seq<Event>)
    requires cols >= 2 && trace != [] && trace[|trace| - 1].SnapshotEvent?
    ensures var run, t := Stores(cols, trace), Run(cols, trace[..|trace| - 1]).thread;
      && run != [] && run[..|run| - 1] == Stores(cols, trace[..|trace| - 1])
      && run[|run| - 1].Put? && run[|run| - 1].recs == t.front && run[|run| - 1].ni.running == t.current
  {
  }

  /** The running node is known, or has a record in the buffer about to be sent. */
  lemma CurrentMarks(cfg: Config, trace: seq<Event>, tree: Tree)
    requires Deployed(cfg) && Mirrors(tree, Run(|cfg.meta|, trace))
    ensures var t := Run(|cfg.meta|, trace).thread; t.current in tree || (t.front != [] && t.current in Ids(t.front))
  {
    var p := Run(|cfg.meta|, trace);
    RunStream(|cfg.meta|, trace);
    var n := p.thread.current;
    if n != ROOT {
      assert Reported(Stream(p), n);
      ReportedSplit(Flatten(p.flushed), p.thread.front, n);
      IdsAreReported(Flatten(p.flushed), n);
      IdsAreReported(p.thread.front, n);
    }
  }

  lemma ReportedSplit(sent: seq<Record>, front: seq<Record>, n: NodeId)
    requires Reported(sent + front, n)
    ensures Reported(sent, n) || Reported(front, n)
  {
    var k :| 0 <= k < |sent + front| && (sent + front)[k].id == n;
    if k < |sent| {
      assert sent[k].id == n;
    } else {
      assert front[k - |sent|].id == n;
    }
  }

  /** So outside single-tree mode the slices of a profiled thread have every node
      whose context is exposed. */
  lemma ThreadKept(cfg: Config, trace: seq<Event>, log: seq<Action>)
    requires Feeds(cfg, trace, log) && !cfg.single
    requires trace != [] && trace[|trace| - 1].SnapshotEvent?
    ensures var tree, p := After(cfg, log).tree, Run(|cfg.meta|, trace);
      forall n :: n in tree ==>
        && 1 <= n < |p.thread.nodes|
        && (n in Kept(cfg, log) <==> Exposed(cfg, Path(p.thread.nodes, n)))
  {
    StoresMark(cfg, trace);
    FedTree(cfg, trace, log);
    SameDeliveriesSameMarked(cfg, log, Stores(|cfg.meta|, trace));
    KeptIsSeen(cfg, log);
    var tree, p := After(cfg, log).tree, Run(|cfg.meta|, trace);
    forall n | n in tree
      ensures 1 <= n < |p.thread.nodes| && (n in Kept(cfg, log) <==> Exposed(cfg, Path(p.thread.nodes, n)))
    {
      SeenIffExposed(cfg, tree, p, n);
    }
  }

  lemma SentIsStream(cols: nat, trace: seq<Event>)
    requires cols >= 2 && trace != [] && trace[|trace| - 1].SnapshotEvent?
    ensures Stream(Run(cols, trace)) == Flatten(Run(cols, trace).flushed)
  {
    assert Run(cols, trace).thread.front == [];
  }

  lemma AllReported(cols: nat, trace: seq<Event>, n: NodeId)
    requires cols >= 2 && trace != [] && trace[|trace| - 1].SnapshotEvent?
    requires 1 <= n < |Run(cols, trace).thread.nodes|
    ensures n in {ROOT} + Ids(Flatten(Run(cols, trace).flushed))
  {
    RunStream(cols, trace);
    var p := Run(cols, trace);
    assert p.thread.front == [];
    assert Stream(p) == Flatten(p.flushed);
    if n != ROOT {
      assert Reported(Stream(p), n);
      IdsAreReported(Flatten(p.flushed), n);
    }
  }

  /** In particular column 1 of every node on the stack is when its open call
      began, unless a call around it is named like an attribute. */
  lemma OpenCallsShowTheirStart(cfg: Config, trace: seq<Event>, log: seq<Action>, j: nat)
    requires Feeds(cfg, trace, log) && !cfg.single
    requires trace != [] && trace[|trace| - 1].SnapshotEvent? && j < |Stack(trace)|
    ensures var nodes, tree := Run(|cfg.meta|, trace).thread.nodes, After(cfg, log).tree;
      var n := Lookup(nodes, Names(Stack(trace)[..j + 1]));
      && n.Some? && n.value in tree
      && AllAt(tree, n.value, 1) == if Exposed(cfg, Names(Stack(trace)[..j + 1])) then Stack(trace)[j].start else 0
  {
    var q := Names(Stack(trace)[..j + 1]);
    ShownOnStack(trace, j);
    MonitorShowsCounters(cfg, trace, log, q);
    StackKnown(|cfg.meta|, trace, j + 1);
  }

  /** Every prefix of the stack has a node. */
  lemma {:induction false} StackKnown(cols: nat, trace: seq<Event>, j: nat)
    requires cols >= 2 && j <= |Stack(trace)|
    ensures Lookup(Run(cols, trace).thread.nodes, Names(Stack(trace)[..j])).Some?
    decreases |Stack(trace)| - j
  {
    var t, stack := Run(cols, trace).thread, Stack(trace);
    if j == |stack| {
      RunCurrent(cols, trace);
      LookupPath(t.nodes, t.current);
      assert stack[..j] == stack;
    } else {
      StackKnown(cols, trace, j + 1);
      NamesInit(stack, j);
    }
  }

  lemma NamesInit(stack: seq<Frame>, j: nat)
    requires j < |stack|
    ensures var q := Names(stack[..j + 1]); q != [] && q[..|q| - 1] == Names(stack[..j])
  {
  }
}
