/** What the value shown for a window has to do with the time spent in it. */
module WindowTime {
  import opened Wire
  import opened Sums
  import opened Forest
  import CT = CallTree
  import opened CallTreeRuns
  import opened Nesting
  import opened StoreModel
  import opened TimeSlices
  import opened StoreRuns
  import opened Representations
  import opened ThreadStores
  import opened EndToEnd
  import opened Viewer
  import opened ViewerSync
  import opened SelfTime

  // ------------------------------------------------- time in the profiled thread

  /** The time spent in `n` between the end of `before` and the end of `trace`. */
  ghost function SpentWithin(cols: nat, before: seq<Event>, trace: seq<Event>, n: NodeId): int
    requires cols >= 2
  {
    TimeIn(Run(cols, trace), n, LastTime(trace)) - TimeIn(Run(cols, before), n, LastTime(before))
  }

  /** The earlier part of a call to `n` that was open at the end of `before` and
      is not any more at the end of `trace`. */
  ghost function CarriedIn(cols: nat, before: seq<Event>, trace: seq<Event>, n: NodeId): int
    requires cols >= 2
  {
    var p, q := Run(cols, before), Run(cols, trace);
    if Nesting.Open(p.thread, n) && !(Nesting.Open(q.thread, n) && Start(q.thread, n) < LastTime(before))
    then LastTime(before) - Start(p.thread, n) else 0
  }

  /** No time is spent in a node there is not yet. */
  lemma Unknown(p: Process, n: NodeId, now: int)
    requires CT.Valid(p.thread) && StreamOk(Stream(p), p.thread) && (n == 0 || n >= |p.thread.nodes|)
    ensures TimeIn(p, n, now) == 0 && Total(Stream(p), n, Column(0)) == 0 && !Nesting.Open(p.thread, n)
  {
    forall k | 0 <= k < |Stream(p)|
      ensures Stream(p)[k].id != n
    {
      assert Describes(p.thread.nodes, p.thread.cols, Stream(p)[k]);
    }
    NothingReported(Stream(p), n);
    if Under(NodePar(p.thread.nodes), n, p.thread.current) {
      UnderOrder(NodePar(p.thread.nodes), n, p.thread.current);
    }
  }

  /** A step of the thread takes no time. */
  lemma StepSameTime(p: Process, e: Event, q: Process, n: NodeId)
    requires CT.Valid(p.thread) && StreamOk(Stream(p), p.thread)
    requires q == Step(p, e) && StreamOk(Stream(q), q.thread)
    ensures TimeIn(q, n, e.now) == TimeIn(p, n, e.now)
  {
    match e
    case CallEvent(name, now) =>
      CallShape(p.thread, name, now);
      CallSameTimes(p, name, now);
      NewOrSame(p, q, n, now);
    case ReturnEvent(now) =>
      if p.thread.current != ROOT {
        ReturnShape(p.thread, now);
        ReturnSameTimes(p, now);
        NewOrSame(p, q, n, now);
      }
    case SnapshotEvent(now) =>
      StreamOfSnapshot(p, now);
  }

  lemma NewOrSame(p: Process, q: Process, n: NodeId, now: int)
    requires CT.Valid(p.thread) && StreamOk(Stream(p), p.thread)
    requires CT.Valid(q.thread) && StreamOk(Stream(q), q.thread) && SameTimes(p, q, now)
    ensures TimeIn(q, n, now) == TimeIn(p, n, now)
  {
    if n == 0 || n >= |p.thread.nodes| {
      Unknown(p, n, now);
    }
    if n == 0 || n >= |q.thread.nodes| {
      Unknown(q, n, now);
    }
  }

  /** Of the time between two moments of a run no more can be spent in a node. */
  lemma {:induction false} TimeAdvances(cols: nat, before: seq<Event>, trace: seq<Event>, n: NodeId)
    requires cols >= 2 && before <= trace && Clocked(trace)
    ensures 0 <= SpentWithin(cols, before, trace, n) <= LastTime(trace) - LastTime(before)
    decreases |trace|
  {
    if before != trace {
      var init, e := trace[..|trace| - 1], trace[|trace| - 1];
      TimeAdvances(cols, before, init, n);
      RunStream(cols, init);
      RunStream(cols, trace);
      StepSameTime(Run(cols, init), e, Run(cols, trace), n);
    }
  }

  lemma {:induction false} LastTimeGrows(before: seq<Event>, trace: seq<Event>)
    requires before <= trace && Clocked(trace)
    ensures Clocked(before) && LastTime(before) <= LastTime(trace)
    decreases |trace|
  {
    if before != trace {
      LastTimeGrows(before, trace[..|trace| - 1]);
    }
  }

  /** A call that is open now and began before some moment was open at it. */
  lemma {:induction false} StillOpen(cols: nat, before: seq<Event>, trace: seq<Event>, n: NodeId)
    requires cols >= 2 && before <= trace && Clocked(trace)
    requires var q := Run(cols, trace); Nesting.Open(q.thread, n) && Start(q.thread, n) < LastTime(before)
    ensures var p, q := Run(cols, before), Run(cols, trace);
      Nesting.Open(p.thread, n) && Start(p.thread, n) == Start(q.thread, n)
    decreases |trace|
  {
    if before != trace {
      var init, e := trace[..|trace| - 1], trace[|trace| - 1];
      LastTimeGrows(before, init);
      OpenBefore(Run(cols, init), e, n, LastTime(before));
      StillOpen(cols, before, init, n);
    }
  }

  lemma OpenBefore(p: Process, e: Event, n: NodeId, time: int)
    requires CT.Valid(p.thread) && time <= e.now
    requires var u := Step(p, e).thread; Nesting.Open(u, n) && Start(u, n) < time
    ensures Nesting.Open(p.thread, n) && Start(p.thread, n) == Start(Step(p, e).thread, n)
  {
    var t, u := p.thread, Step(p, e).thread;
    var a, b := NodePar(t.nodes), NodePar(u.nodes);
    NodeParWellFormed(t.nodes);
    NodeParWellFormed(u.nodes);
    UnderOrder(b, n, u.current);
    match e
    case CallEvent(name, now) =>
      CallShape(t, name, now);
      UnderParent(b, n, u.current);
      UnderGrow(a, b, n, t.current);
      UnderOrder(a, n, t.current);
    case ReturnEvent(now) =>
      if t.current != ROOT {
        ReturnShape(t, now);
        assert a == b;
        UnderParent(a, n, t.current);
      }
    case SnapshotEvent(now) =>
  }

  // ------------------------------------------------------------ the value shown

  function Min(a: int, b: int): int {
    if a < b then a else b
  }

  /** A node as a window shows it: column 0 has what calls completed in the
      window took, and while a call is open, column 1 has its start. */
  ghost predicate WindowNode(cols: nat, before: seq<Event>, trace: seq<Event>, n: NodeId, node: ViewNode)
    requires cols >= 2
  {
    var p, q := Run(cols, before), Run(cols, trace);
    && |node.values.all| == cols
    && node.values.all[0] == Total(Stream(q), n, Column(0)) - Total(Stream(p), n, Column(0))
    && node.running == Nesting.Open(q.thread, n)
    && (node.running ==> node.values.all[1] == Start(q.thread, n))
  }

  /** The value shown for a window is the time spent in it, plus the part before
      the window of a call that was completed in it, but no more than the window's
      length. So it lies between the two, and is too large just for such calls. */
  ghost predicate ShowsTime(
    cols: nat, before: seq<Event>, trace: seq<Event>, n: NodeId, node: ViewNode, first: seq<int>, now: seq<int>)
    requires cols >= 2 && |node.values.all| >= 2 && |first| >= 2 && |now| >= 2
  {
    var value, spent, length :=
      ProfileValueAll(false, Some(first), now, node, 0), SpentWithin(cols, before, trace, n), now[1] - first[1];
    && value == Min(spent + CarriedIn(cols, before, trace, n), length)
    && spent <= value <= length
    && (value > spent <==> CarriedIn(cols, before, trace, n) > 0 && spent < length)
  }

  /** The viewer's arithmetic: `done` in completed calls, and an open call since
      `since`, which is cut to the window, as is the sum. */
  lemma ViewerArithmetic(node: ViewNode, first: seq<int>, now: seq<int>, done: int, since: int)
    requires |node.values.all| >= 2 && |first| >= 2 && |now| >= 2
    requires node.values.all[0] == done && (node.running ==> node.values.all[1] == since && since > 0)
    ensures var cut := if since < first[1] then first[1] else since;
      ProfileValueAll(false, Some(first), now, node, 0)
      == Min(done + if node.running then now[1] - cut else 0, now[1] - first[1])
  {
  }

  /** What was spent and carried in, in terms of the open calls at both ends. */
  lemma SpentAndCarried(cols: nat, before: seq<Event>, trace: seq<Event>, n: NodeId, done: int)
    requires cols >= 2 && before <= trace && Clocked(trace)
    requires done == Total(Stream(Run(cols, trace)), n, Column(0)) - Total(Stream(Run(cols, before)), n, Column(0))
    ensures var q, spent := Run(cols, trace), SpentWithin(cols, before, trace, n);
      var carried, since, length :=
        CarriedIn(cols, before, trace, n), Start(q.thread, n), LastTime(trace) - LastTime(before);
      && 0 <= spent <= length && carried >= 0
      && (!Nesting.Open(q.thread, n) ==> done == spent + carried)
      && (Nesting.Open(q.thread, n) && since >= LastTime(before) ==> done + (LastTime(trace) - since) == spent + carried)
      && (Nesting.Open(q.thread, n) && since < LastTime(before) ==> carried == 0 && done + length == spent)
      && (Nesting.Open(q.thread, n) ==> since > 0)
  {
    var p, q := Run(cols, before), Run(cols, trace);
    TimeAdvances(cols, before, trace, n);
    LastTimeGrows(before, trace);
    if Nesting.Open(p.thread, n) {
      StartedBefore(cols, before, n);
    }
    if Nesting.Open(q.thread, n) {
      StartedBefore(cols, trace, n);
      if Start(q.thread, n) < LastTime(before) {
        StillOpen(cols, before, trace, n);
      }
    }
  }

  lemma WindowValue(
    cols: nat, before: seq<Event>, trace: seq<Event>, n: NodeId, node: ViewNode, first: seq<int>, now: seq<int>)
    requires cols >= 2 && before <= trace && Clocked(trace)
    requires WindowNode(cols, before, trace, n, node)
    requires |first| >= 2 && first[1] == LastTime(before) && |now| >= 2 && now[1] == LastTime(trace)
    ensures ShowsTime(cols, before, trace, n, node, first, now)
  {
    var done, since := node.values.all[0], Start(Run(cols, trace).thread, n);
    SpentAndCarried(cols, before, trace, n, done);
    ViewerArithmetic(node, first, now, done, since);
    SameMin(done, node.running, since, first[1], now[1],
            SpentWithin(cols, before, trace, n), CarriedIn(cols, before, trace, n));
  }

  lemma SameMin(done: int, open: bool, since: int, t0: int, t1: int, spent: int, carried: int)
    requires 0 <= spent <= t1 - t0 && carried >= 0
    requires !open ==> done == spent + carried
    requires open && since >= t0 ==> done + (t1 - since) == spent + carried
    requires open && since < t0 ==> carried == 0 && done + (t1 - t0) == spent
    ensures var value := Min(done + if open then t1 - (if since < t0 then t0 else since) else 0, t1 - t0);
      && value == Min(spent + carried, t1 - t0) && spent <= value <= t1 - t0
      && (value > spent <==> carried > 0 && spent < t1 - t0)
  {
  }

  lemma StartedBefore(cols: nat, trace: seq<Event>, n: NodeId)
    requires cols >= 2 && Clocked(trace) && Nesting.Open(Run(cols, trace).thread, n)
    ensures 0 < Start(Run(cols, trace).thread, n) <= LastTime(trace)
  {
    var t := Run(cols, trace).thread;
    UnderOrder(NodePar(t.nodes), n, t.current);
    OpenStart(cols, trace, n);
  }

  // -------------------------------------------------- what the monitor sends

  /** The monitor's tree when it has stored all of a thread's buffers. */
  ghost predicate Fed(cfg: Config, trace: seq<Event>, tree: Tree) {
    && Deployed(cfg) && trace != [] && trace[|trace| - 1].SnapshotEvent?
    && Runnable(cfg, Stores(|cfg.meta|, trace)) && tree == After(cfg, Stores(|cfg.meta|, trace)).tree
  }

  /** What it holds for a node. */
  lemma SeenTotals(cfg: Config, trace: seq<Event>, tree: Tree, n: NodeId)
    requires Fed(cfg, trace, tree) && !cfg.single && Clocked(trace) && n in Seen(cfg, tree) && n >= 2
    ensures var q := Run(|cfg.meta|, trace);
      && n < |q.thread.nodes| && AllAt(tree, n, 0) == Total(Stream(q), n, Column(0))
      && (Nesting.Open(q.thread, n) ==> AllAt(tree, n, 1) == Start(q.thread, n))
  {
    StoresRunnable(cfg, trace);
    var q := Run(|cfg.meta|, trace);
    assert n in Par(tree) && SameNode(tree, q.thread.nodes, n);
    AllFaithful(cfg, trace, n);
  }

  lemma NotYetThere(cfg: Config, trace: seq<Event>, tree: Tree, n: NodeId)
    requires Fed(cfg, trace, tree) && n !in tree && n >= 2
    ensures Total(Stream(Run(|cfg.meta|, trace)), n, Column(0)) == 0
  {
    SameParents(cfg, trace);
    var q := Run(|cfg.meta|, trace);
    RunStream(|cfg.meta|, trace);
    assert n !in NodePar(q.thread.nodes);
    Unknown(q, n, 0);
  }

  /** The values of a window are those of a window node. */
  lemma WindowValues(
    cfg: Config, before: seq<Event>, trace: seq<Event>, log: seq<Action>, since: int, to: int, start: int,
    slices: seq<Slice>, m: SliceTree, n: NodeId)
    requires Runnable(cfg, log) && !cfg.single && since < to
    requires After(cfg, log).slices != [] ==> start == After(cfg, log).start
    requires MergedTo(cfg, After(cfg, log).slices, start, since + 1, to + 1, slices, m)
    requires Fed(cfg, before, TreeAt(cfg, log, since)) && Fed(cfg, trace, TreeAt(cfg, log, to))
    requires Clocked(before) && Clocked(trace) && n in m && n >= 2
    ensures var p, q := Run(|cfg.meta|, before), Run(|cfg.meta|, trace);
      && n < |q.thread.nodes|
      && SliceAll(m, n, 0) == Total(Stream(q), n, Column(0)) - Total(Stream(p), n, Column(0))
      && (Nesting.Open(q.thread, n) ==> SliceAll(m, n, 1) == Start(q.thread, n))
  {
    var from := since + 1;
    assert from - 1 == since;
    WindowIsDifference(cfg, log, from, to, start, slices, m, n, 0);
    WindowStatic(cfg, log, from, to, start, slices, m, n, 1);
    TreeAtGrows(cfg, log, since, to);
    var u, t := TreeAt(cfg, log, since), TreeAt(cfg, log, to);
    SeenTotals(cfg, trace, t, n);
    if n in u {
      SeenTotals(cfg, before, u, n);
    } else {
      NotYetThere(cfg, before, u, n);
    }
  }

  lemma SubWellFormed(par: Parents, sub: Parents)
    requires WellFormed(par) && Extends(sub, par) && ClosedIn(par, sub.Keys) && sub.Keys != {}
    ensures WellFormed(sub)
  {
    forall x | x in sub
      ensures Hangs(sub, x)
    {
      assert Hangs(par, x) && ClosedAt(par, sub.Keys, x);
    }
  }

  /** In a view of part of a tree, closed under parents, a node is above the
      running one exactly if it has an open call. */
  lemma UnderInView(cfg: Config, trace: seq<Event>, mid: Tree, par: Parents, sub: Parents, n: NodeId, run: NodeId)
    requires Fed(cfg, trace, mid) && WellFormed(par) && Extends(Par(mid), par)
    requires Extends(sub, par) && ClosedIn(par, sub.Keys)
    requires run in sub && run == Run(|cfg.meta|, trace).thread.current
    ensures Under(sub, n, run) == Under(NodePar(Run(|cfg.meta|, trace).thread.nodes), n, run)
  {
    var t := Run(|cfg.meta|, trace).thread;
    SameParents(cfg, trace);
    NodeParWellFormed(t.nodes);
    SubWellFormed(par, sub);
    UnderGrow(sub, par, n, run);
    UnderGrow(Par(mid), par, n, run);
  }

  lemma ViewOfWindow(cfg: Config, tree: Tree, m: SliceTree, view: View, run: NodeId)
    requires WellFormed(Par(tree)) && ClosedIn(Par(tree), m.Keys) && SliceWidths(cfg, m)
    requires Updated(cfg, map[], view, Dump(Par(tree), m), Some(run))
    ensures ViewValues(view) == m && ViewPar(view).Keys == m.Keys && Extends(ViewPar(view), Par(tree))
    ensures forall x :: x in view ==> (view[x].running <==> Under(ViewPar(view), x, run))
  {
    ReplyShown(cfg, map[], view, tree, m, Some(run));
    OntoNothing(cfg, m);
    assert ViewValues(map[]) == map[];
    assert ViewValues(view).Keys == view.Keys == ViewPar(view).Keys;
  }

  lemma NodeShown(cfg: Config, m: SliceTree, view: View, n: NodeId)
    requires ViewValues(view) == m && SliceWidths(cfg, m) && n in view && |cfg.meta| >= 2
    ensures n in m && |view[n].values.all| == |cfg.meta|
    ensures view[n].values.all[0] == SliceAll(m, n, 0) && view[n].values.all[1] == SliceAll(m, n, 1)
  {
    assert m[n] == view[n].values;
  }

  /** `before` ended at time `since` and `trace` at time `to` of the thread's log. */
  ghost predicate Ends(
    cfg: Config, before: seq<Event>, trace: seq<Event>, log: seq<Action>, since: int, to: int)
  {
    && Runnable(cfg, log) && !cfg.single && since < to && before <= trace && Clocked(trace) && Clocked(before)
    && Fed(cfg, before, TreeAt(cfg, log, since)) && Fed(cfg, trace, TreeAt(cfg, log, to))
  }

  /** `view` is what a viewer has of the window `m`, in which `run` ran last. */
  ghost predicate Viewed(
    cfg: Config, s: State, start: int, since: int, to: int, slices: seq<Slice>, m: SliceTree, run: NodeId, view: View)
  {
    && start == s.start && MergedTo(cfg, s.slices, start, since + 1, to + 1, slices, m)
    && m.Keys <= s.tree.Keys && Updated(cfg, map[], view, Dump(Par(s.tree), m), Some(run))
  }

  lemma ViewedWindow(
    cfg: Config, log: seq<Action>, start: int, since: int, to: int, slices: seq<Slice>, m: SliceTree,
    run: NodeId, view: View)
    requires Runnable(cfg, log) && Viewed(cfg, After(cfg, log), start, since, to, slices, m, run, view)
    ensures ClosedIn(Par(After(cfg, log).tree), m.Keys) && SliceWidths(cfg, m)
    ensures ViewValues(view) == m && ViewPar(view).Keys == m.Keys
    ensures Extends(ViewPar(view), Par(After(cfg, log).tree))
    ensures forall x :: x in view ==> (view[x].running <==> Under(ViewPar(view), x, run))
  {
    WindowClosed(cfg, log, since + 1, to + 1, start, slices, m);
    ViewOfWindow(cfg, After(cfg, log).tree, m, view, run);
  }

  lemma ViewedValues(
    cfg: Config, before: seq<Event>, trace: seq<Event>, log: seq<Action>, since: int, to: int, start: int,
    slices: seq<Slice>, m: SliceTree, view: View, run: NodeId, n: NodeId)
    requires Ends(cfg, before, trace, log, since, to) && n >= 2 && n in view
    requires Viewed(cfg, After(cfg, log), start, since, to, slices, m, run, view)
    ensures var p, q := Run(|cfg.meta|, before), Run(|cfg.meta|, trace);
      && |view[n].values.all| == |cfg.meta|
      && view[n].values.all[0] == Total(Stream(q), n, Column(0)) - Total(Stream(p), n, Column(0))
      && (Nesting.Open(q.thread, n) ==> view[n].values.all[1] == Start(q.thread, n))
  {
    ViewedWindow(cfg, log, start, since, to, slices, m, run, view);
    NodeShown(cfg, m, view, n);
    WindowValues(cfg, before, trace, log, since, to, start, slices, m, n);
  }

  lemma ViewedFlag(
    cfg: Config, before: seq<Event>, trace: seq<Event>, log: seq<Action>, since: int, to: int, start: int,
    slices: seq<Slice>, m: SliceTree, view: View, run: NodeId, n: NodeId)
    requires Ends(cfg, before, trace, log, since, to) && n >= 2 && n in view
    requires Viewed(cfg, After(cfg, log), start, since, to, slices, m, run, view)
    requires run in m && run == Run(|cfg.meta|, trace).thread.current
    ensures view[n].running == Nesting.Open(Run(|cfg.meta|, trace).thread, n)
  {
    ViewedWindow(cfg, log, start, since, to, slices, m, run, view);
    FlagInView(cfg, trace, log, to, ViewPar(view), n, run);
  }

  /** The viewer's node for a window is a window node. */
  lemma WindowInView(
    cfg: Config, before: seq<Event>, trace: seq<Event>, log: seq<Action>, since: int, to: int, start: int,
    slices: seq<Slice>, m: SliceTree, view: View, run: NodeId, n: NodeId)
    requires Ends(cfg, before, trace, log, since, to) && run == Run(|cfg.meta|, trace).thread.current && n >= 2
    ensures Viewed(cfg, After(cfg, log), start, since, to, slices, m, run, view) && run in m && n in view ==>
      WindowNode(|cfg.meta|, before, trace, n, view[n])
  {
    if Viewed(cfg, After(cfg, log), start, since, to, slices, m, run, view) && run in m && n in view {
      ViewedValues(cfg, before, trace, log, since, to, start, slices, m, view, run, n);
      ViewedFlag(cfg, before, trace, log, since, to, start, slices, m, view, run, n);
    }
  }

  lemma FlagInView(cfg: Config, trace: seq<Event>, log: seq<Action>, to: int, sub: Parents, n: NodeId, run: NodeId)
    requires Runnable(cfg, log) && Fed(cfg, trace, TreeAt(cfg, log, to))
    requires Extends(sub, Par(After(cfg, log).tree)) && ClosedIn(Par(After(cfg, log).tree), sub.Keys)
    requires run in sub && run == Run(|cfg.meta|, trace).thread.current
    ensures Under(sub, n, run) == Under(NodePar(Run(|cfg.meta|, trace).thread.nodes), n, run)
  {
    TreeAtKnown(cfg, log, to);
    UnderInView(cfg, trace, TreeAt(cfg, log, to), Par(After(cfg, log).tree), sub, n, run);
  }

  // ------------------------------------------------------------- the stores

  /** A thread's log up to the store of the snapshot that ends `trace`, with the
      clock reading in its now-info. */
  ghost predicate StoreEnds(cfg: Config, trace: seq<Event>, part: seq<Action>) {
    && Feeds(cfg, trace, part) && trace != [] && trace[|trace| - 1].SnapshotEvent?
    && part != [] && part[|part| - 1].Put?
    && |part[|part| - 1].ni.values| >= 2 && part[|part| - 1].ni.values[1] == LastTime(trace)
  }

  lemma TreeIsFed(cfg: Config, trace: seq<Event>, log: seq<Action>, part: seq<Action>)
    requires Runnable(cfg, log) && !cfg.single && part <= log && StoreEnds(cfg, trace, part)
    ensures Fed(cfg, trace, TreeAt(cfg, log, part[|part| - 1].time))
  {
    TreeAtPut(cfg, log, part);
    FedTree(cfg, trace, part);
  }

  /** What such a store was given. */
  lemma StoreGiven(cfg: Config, trace: seq<Event>, part: seq<Action>)
    requires StoreEnds(cfg, trace, part)
    ensures Feeds(cfg, trace[..|trace| - 1], part[..|part| - 1])
    ensures var t, a := Run(|cfg.meta|, trace[..|trace| - 1]).thread, part[|part| - 1];
      a.recs == t.front && a.ni.running == t.current
    ensures Run(|cfg.meta|, trace).thread.current == Run(|cfg.meta|, trace[..|trace| - 1]).thread.current
  {
    InitRunnable(cfg, part);
    LastGiven(|cfg.meta|, trace, part, Stores(|cfg.meta|, trace));
    CurrentStays(|cfg.meta|, trace);
  }

  lemma LastGiven(cols: nat, trace: seq<Event>, part: seq<Action>, stores: seq<Action>)
    requires cols >= 2 && trace != [] && trace[|trace| - 1].SnapshotEvent? && stores == Stores(cols, trace)
    requires part != [] && part[|part| - 1].Put? && Deliveries(part) == Deliveries(stores)
    ensures Deliveries(part[..|part| - 1]) == Deliveries(Stores(cols, trace[..|trace| - 1]))
    ensures var t, a := Run(cols, trace[..|trace| - 1]).thread, part[|part| - 1];
      a.recs == t.front && a.ni.running == t.current
  {
    LastStore(cols, trace);
    LastDelivery(part, stores);
  }

  lemma CurrentStays(cols: nat, trace: seq<Event>)
    requires cols >= 2 && trace != [] && trace[|trace| - 1].SnapshotEvent?
    ensures Run(cols, trace).thread.current == Run(cols, trace[..|trace| - 1]).thread.current
  {
  }

  lemma InitRunnable(cfg: Config, part: seq<Action>)
    requires Runnable(cfg, part) && part != []
    ensures Runnable(cfg, part[..|part| - 1])
  {
  }

  /** The running node is in the slice of the store it was sent for, if its
      context is exposed. */
  lemma RunningStored(cfg: Config, trace: seq<Event>, part: seq<Action>)
    requires StoreEnds(cfg, trace, part) && Exposed(cfg, Names(Stack(trace)))
    ensures var init, a := part[..|part| - 1], part[|part| - 1];
      && Runnable(cfg, init) && Enabled(cfg, After(cfg, init), a)
      && a.ni.running in StoreSlice(cfg, After(cfg, init).tree, a.ni.running, a.recs)
  {
    var cols, init, a := |cfg.meta|, part[..|part| - 1], part[|part| - 1];
    StoreGiven(cfg, trace, part);
    FedTree(cfg, trace, part);
    FedTree(cfg, trace[..|trace| - 1], init);
    var u, q := After(cfg, init).tree, Run(cols, trace);
    CurrentMarks(cfg, trace[..|trace| - 1], u);
    LastPut(cfg, part, init, a);
    StoreExtends(cfg, u, a.ni.running, a.recs);
    RunCurrent(cols, trace);
    SeenIffExposed(cfg, After(cfg, part).tree, q, q.thread.current);
    SliceClosed(cfg, u, a.ni.running, a.recs);
  }

  ghost predicate RanAt(s: State, time: int, run: NodeId) {
    && s.slices != [] && s.start <= time && time - s.start < |s.slices|
    && run in s.slices[time - s.start].tree
  }

  lemma RunningInSlice(cfg: Config, trace: seq<Event>, log: seq<Action>, part: seq<Action>)
    requires Runnable(cfg, log) && !cfg.single && part <= log && StoreEnds(cfg, trace, part)
    requires Exposed(cfg, Names(Stack(trace)))
    ensures RanAt(After(cfg, log), part[|part| - 1].time, part[|part| - 1].ni.running)
    ensures part[|part| - 1].ni.running == Run(|cfg.meta|, trace).thread.current
  {
    var init, a := part[..|part| - 1], part[|part| - 1];
    RunningStored(cfg, trace, part);
    StoreGiven(cfg, trace, part);
    SliceStays(cfg, log, part);
    StoredRan(After(cfg, log), a.time, SliceFrom(cfg, After(cfg, init).tree, a), a.ni.running);
  }

  lemma StoredRan(s: State, time: int, slice: Slice, run: NodeId)
    ensures SliceAt(s, time, slice) && run in slice.tree ==> RanAt(s, time, run)
  {
  }

  /** The slice for a store's time has the readings and the running node stored. */
  ghost predicate StoredAt(s: State, a: Action) {
    && a.Put? && s.slices != [] && s.start <= a.time && a.time - s.start < |s.slices|
    && s.slices[a.time - s.start].now == a.ni.values && s.slices[a.time - s.start].running == a.ni.running
  }

  lemma StoreStays(cfg: Config, log: seq<Action>, part: seq<Action>)
    requires Runnable(cfg, log) && !cfg.single && UpToPut(log, part)
    ensures StoredAt(After(cfg, log), part[|part| - 1])
  {
    SliceStays(cfg, log, part);
    var init, a := part[..|part| - 1], part[|part| - 1];
    SliceReads(After(cfg, log), a, SliceFrom(cfg, After(cfg, init).tree, a));
  }

  lemma SliceReads(s: State, a: Action, slice: Slice)
    requires a.Put? && SliceAt(s, a.time, slice) && slice.now == a.ni.values && slice.running == a.ni.running
    ensures StoredAt(s, a)
  {
  }

  /** So a window from one store to another comes with their readings. */
  lemma WindowHeaded(s: State, start: int, slices: seq<Slice>, a: Action, b: Action, r: WindowReply)
    requires StoredAt(s, a) && StoredAt(s, b) && a.time < b.time && start == s.start
    requires slices == Padded(s.slices, Upto(start, b.time + 1))
    ensures Headed(slices, start, a.time + 1, b.time, r) ==>
      r.start == Some(a.ni.values) && r.now == Some(b.ni.values) && r.running == Some(b.ni.running)
  {
  }

  /** A window has the node that ran when its last slice was stored. */
  lemma RanInWindow(
    cfg: Config, s: State, start: int, since: int, to: int, slices: seq<Slice>, m: SliceTree, run: NodeId, view: View)
    requires since < to && RanAt(s, to, run)
    ensures Viewed(cfg, s, start, since, to, slices, m, run, view) ==> run in m
  {
    if Viewed(cfg, s, start, since, to, slices, m, run, view) {
      var lo, hi, k := Upto(start, since + 1), Upto(start, to + 1), to - start;
      assert hi == k + 1 && lo <= k;
      LastSliceIn(cfg, s.slices, slices, lo, hi, m, k);
    }
  }

  lemma LastSliceIn(
    cfg: Config, slices0: seq<Slice>, slices: seq<Slice>, lo: nat, hi: nat, m: SliceTree, k: nat)
    requires AllWidths(cfg, slices) && slices == Padded(slices0, hi) && lo <= hi <= |slices|
    requires m == Merge(cfg, slices[lo..hi]) && lo <= k < |slices0| && hi == k + 1
    ensures slices0[k].tree.Keys <= m.Keys
  {
    assert slices[k] == slices0[k];
    LastOfWindow(cfg, slices, lo, k);
  }

  lemma LastOfWindow(cfg: Config, slices: seq<Slice>, lo: nat, k: nat)
    requires AllWidths(cfg, slices) && lo <= k < |slices|
    ensures slices[k].tree.Keys <= Merge(cfg, slices[lo..k + 1]).Keys
  {
    var w := slices[lo..k + 1];
    assert w[|w| - 1] == slices[k];
  }

  /** Two stores of a thread's log, at the ends of `before` and of `trace`. */
  ghost predicate Windowed(
    cfg: Config, before: seq<Event>, trace: seq<Event>, log: seq<Action>, early: seq<Action>, late: seq<Action>)
  {
    && Runnable(cfg, log) && !cfg.single && Clocked(trace) && before <= trace
    && early <= late <= log && early != late
    && StoreEnds(cfg, before, early) && StoreEnds(cfg, trace, late)
  }

  lemma WindowFacts(
    cfg: Config, before: seq<Event>, trace: seq<Event>, log: seq<Action>, early: seq<Action>, late: seq<Action>)
    requires Windowed(cfg, before, trace, log, early, late)
    ensures Ends(cfg, before, trace, log, early[|early| - 1].time, late[|late| - 1].time)
  {
    LaterPut(cfg, late, early);
    LastTimeGrows(before, trace);
    TreeIsFed(cfg, before, log, early);
    TreeIsFed(cfg, trace, log, late);
  }

  /** `view` is what a viewer has of the reply for the window from after time
      `since` to `to`. */
  ghost predicate Answered(
    cfg: Config, s: State, start: int, since: int, to: int, slices: seq<Slice>, r: WindowReply, view: View)
  {
    && Headed(slices, start, since + 1, to, r) && r.running.Some?
    && Viewed(cfg, s, start, since, to, slices, r.nodes, r.running.value, view)
  }

  /** End to end: what the viewer shows, for the window between two stores, as the
      time of a node is the time the thread spent in it between the two
      snapshots, plus the part before the window of a call that was completed in
      it, and no more than the time between the snapshots. */
  lemma WindowShowsTime(
    cfg: Config, before: seq<Event>, trace: seq<Event>, log: seq<Action>, early: seq<Action>, late: seq<Action>,
    a: Action, b: Action, start: int, slices: seq<Slice>, r: WindowReply, view: View, n: NodeId)
    requires Windowed(cfg, before, trace, log, early, late) && Exposed(cfg, Names(Stack(trace)))
    requires a == early[|early| - 1] && b == late[|late| - 1]
    requires Answered(cfg, After(cfg, log), start, a.time, b.time, slices, r, view)
    requires n in view && n >= 2
    ensures |view[n].values.all| == |cfg.meta| >= 2
    ensures r.start.Some? && r.now.Some? && |r.start.value| >= 2 && |r.now.value| >= 2
    ensures r.start.value[1] == LastTime(before) && r.now.value[1] == LastTime(trace)
    ensures ShowsTime(|cfg.meta|, before, trace, n, view[n], r.start.value, r.now.value)
  {
    ReadingsOfWindow(cfg, before, trace, log, early, late, a, b, start, slices, r, view);
    NodeOfWindow(cfg, before, trace, log, early, late, a, b, start, slices, r.nodes, view, n);
    WindowValue(|cfg.meta|, before, trace, n, view[n], a.ni.values, b.ni.values);
  }

  lemma ReadingsOfWindow(
    cfg: Config, before: seq<Event>, trace: seq<Event>, log: seq<Action>, early: seq<Action>, late: seq<Action>,
    a: Action, b: Action, start: int, slices: seq<Slice>, r: WindowReply, view: View)
    requires Windowed(cfg, before, trace, log, early, late)
    requires a == early[|early| - 1] && b == late[|late| - 1]
    requires Answered(cfg, After(cfg, log), start, a.time, b.time, slices, r, view)
    ensures r.start == Some(a.ni.values) && r.now == Some(b.ni.values) && r.running == Some(b.ni.running)
  {
    LaterPut(cfg, late, early);
    StoreStays(cfg, log, early);
    StoreStays(cfg, log, late);
    WindowHeaded(After(cfg, log), start, slices, a, b, r);
  }

  lemma NodeOfWindow(
    cfg: Config, before: seq<Event>, trace: seq<Event>, log: seq<Action>, early: seq<Action>, late: seq<Action>,
    a: Action, b: Action, start: int, slices: seq<Slice>, m: SliceTree, view: View, n: NodeId)
    requires Windowed(cfg, before, trace, log, early, late) && Exposed(cfg, Names(Stack(trace)))
    requires a == early[|early| - 1] && b == late[|late| - 1] && n >= 2
    ensures |cfg.meta| >= 2
    ensures Viewed(cfg, After(cfg, log), start, a.time, b.time, slices, m, b.ni.running, view) && n in view ==>
      WindowNode(|cfg.meta|, before, trace, n, view[n])
  {
    WindowFacts(cfg, before, trace, log, early, late);
    RunningInSlice(cfg, trace, log, late);
    RanInWindow(cfg, After(cfg, log), start, a.time, b.time, slices, m, b.ni.running, view);
    WindowInView(cfg, before, trace, log, a.time, b.time, start, slices, m, view, b.ni.running, n);
  }

  // ------------------------------------------------------- the root in a window

  lemma {:induction false} RootTreeAt(cfg: Config, run: seq<Action>, t: int)
    requires Deployed(cfg) && Runnable(cfg, run) && !cfg.single && NoRootRecords(run)
    ensures var tree := TreeAt(cfg, run, t); AllAt(tree, ROOT, 0) == 0 && AllAt(tree, ROOT, 1) == 0
  {
    if run != [] {
      var init := run[..|run| - 1];
      assert forall k :: 0 <= k < |init| ==> init[k] == run[k];
      RootTreeAt(cfg, init, t);
      RootUntouched(cfg, run);
      TreeAtInit(cfg, run, init, run[|run| - 1], t);
    }
  }

  /** The root shows no time in any window, whatever the readings that come with it. */
  lemma RootInWindow(
    cfg: Config, trace: seq<Event>, log: seq<Action>, start: int, since: int, to: int, slices: seq<Slice>,
    r: WindowReply, view: View)
    requires Feeds(cfg, trace, log) && !cfg.single && since < to
    requires Answered(cfg, After(cfg, log), start, since, to, slices, r, view) && ROOT in view
    requires r.start.Some? && |r.start.value| >= 2 && r.now.Some? && |r.now.value| >= 2
    requires r.start.value[1] <= r.now.value[1]
    ensures |view[ROOT].values.all| >= 2
    ensures ProfileValueAll(false, r.start, r.now.value, view[ROOT], 0) == 0
  {
    SentRootless(|cfg.meta|, trace);
    SameRootless(log, Stores(|cfg.meta|, trace));
    RootViewed(cfg, log, start, since, to, slices, r.nodes, r.running.value, view);
    NoTimeShown(view[ROOT], r.start.value, r.now.value);
  }

  lemma RootViewed(
    cfg: Config, log: seq<Action>, start: int, since: int, to: int, slices: seq<Slice>, m: SliceTree,
    run: NodeId, view: View)
    requires Deployed(cfg) && Runnable(cfg, log) && !cfg.single && NoRootRecords(log) && since < to
    requires Viewed(cfg, After(cfg, log), start, since, to, slices, m, run, view) && ROOT in view
    ensures var all := view[ROOT].values.all; |all| >= 2 && all[0] == 0 && all[1] == 0
  {
    ViewedWindow(cfg, log, start, since, to, slices, m, run, view);
    NodeShown(cfg, m, view, ROOT);
    RootMerged(cfg, log, start, since, to, slices, m, run, view);
  }

  lemma RootMerged(
    cfg: Config, log: seq<Action>, start: int, since: int, to: int, slices: seq<Slice>, m: SliceTree,
    run: NodeId, view: View)
    requires Deployed(cfg) && Runnable(cfg, log) && !cfg.single && NoRootRecords(log) && since < to
    ensures Viewed(cfg, After(cfg, log), start, since, to, slices, m, run, view) && ROOT in m ==>
      SliceAll(m, ROOT, 0) == 0 && SliceAll(m, ROOT, 1) == 0
  {
    if Viewed(cfg, After(cfg, log), start, since, to, slices, m, run, view) && ROOT in m {
      RootValues(cfg, log, since + 1, to, start, slices, m);
    }
  }

  lemma NoTimeShown(node: ViewNode, first: seq<int>, now: seq<int>)
    requires |node.values.all| >= 2 && node.values.all[0] == 0 && node.values.all[1] == 0
    requires |first| >= 2 && |now| >= 2 && first[1] <= now[1]
    ensures ProfileValueAll(false, Some(first), now, node, 0) == 0
  {
  }

  lemma RootValues(
    cfg: Config, log: seq<Action>, from: int, to: int, start: int, slices: seq<Slice>, m: SliceTree)
    requires Deployed(cfg) && Runnable(cfg, log) && !cfg.single && NoRootRecords(log) && from <= to
    requires start == After(cfg, log).start && ROOT in m
    requires MergedTo(cfg, After(cfg, log).slices, start, from, to + 1, slices, m)
    ensures SliceAll(m, ROOT, 0) == 0 && SliceAll(m, ROOT, 1) == 0
  {
    RootTreeAt(cfg, log, to);
    RootTreeAt(cfg, log, from - 1);
    WindowIsDifference(cfg, log, from, to, start, slices, m, ROOT, 0);
    WindowStatic(cfg, log, from, to, start, slices, m, ROOT, 1);
  }

  // ------------------------------------------ windows from the first slice on

  /** No store came before the first slice. */
  lemma {:induction false} NothingBefore(cfg: Config, log: seq<Action>, part: seq<Action>, t: int)
    requires Runnable(cfg, log) && !cfg.single && part <= log
    requires After(cfg, log).slices != [] && t < After(cfg, log).start
    ensures Runnable(cfg, part) && TreeAt(cfg, part, t) == FirstTree(cfg)
    decreases |part|
  {
    PartRunnable(cfg, log, part);
    if part != [] {
      if part[|part| - 1].Put? {
        SliceStays(cfg, log, part);
      }
      NothingBefore(cfg, log, part[..|part| - 1], t);
      TreeAtInit(cfg, part, part[..|part| - 1], part[|part| - 1], t);
    }
  }

  lemma {:induction false} SpentNotNegative(trace: seq<Event>, q: Context)
    requires Clocked(trace)
    ensures Spent(trace, q) >= 0
  {
    if trace != [] {
      var init, e := trace[..|trace| - 1], trace[|trace| - 1];
      SpentNotNegative(init, q);
      if Stack(init) != [] {
        StartsInRange(init, |Stack(init)| - 1);
      }
    }
  }

  lemma TotalNotNegative(cols: nat, trace: seq<Event>, n: NodeId)
    requires cols >= 2 && Clocked(trace) && 2 <= n < |Run(cols, trace).thread.nodes|
    ensures Total(Stream(Run(cols, trace)), n, Column(0)) >= 0
  {
    var nodes := Run(cols, trace).thread.nodes;
    LookupPath(nodes, n);
    RunCounters(cols, trace, Path(nodes, n));
    SpentNotNegative(trace, Path(nodes, n));
  }

  /** Such a window has all that was received up to its end. */
  lemma FirstValues(
    cfg: Config, trace: seq<Event>, log: seq<Action>, since: int, to: int, start: int,
    slices: seq<Slice>, m: SliceTree, n: NodeId)
    requires Runnable(cfg, log) && !cfg.single && since < to
    requires After(cfg, log).slices != [] && start == After(cfg, log).start && since < start
    requires MergedTo(cfg, After(cfg, log).slices, start, since + 1, to + 1, slices, m)
    requires Fed(cfg, trace, TreeAt(cfg, log, to)) && Clocked(trace) && n in m && n >= 2
    ensures var q := Run(|cfg.meta|, trace);
      && n < |q.thread.nodes|
      && SliceAll(m, n, 0) == Total(Stream(q), n, Column(0))
      && (Nesting.Open(q.thread, n) ==> SliceAll(m, n, 1) == Start(q.thread, n))
  {
    FirstTotals(cfg, log, since + 1, to, start, slices, m, n);
    WindowStatic(cfg, log, since + 1, to, start, slices, m, n, 1);
    SeenTotals(cfg, trace, TreeAt(cfg, log, to), n);
  }

  lemma FirstTotals(
    cfg: Config, log: seq<Action>, from: int, to: int, start: int, slices: seq<Slice>, m: SliceTree, n: NodeId)
    requires Runnable(cfg, log) && !cfg.single && from <= to && |cfg.meta| >= 1 && Summed(cfg, 0)
    requires After(cfg, log).slices != [] && start == After(cfg, log).start && from <= start
    requires MergedTo(cfg, After(cfg, log).slices, start, from, to + 1, slices, m)
    ensures SliceAll(m, n, 0) == AllAt(TreeAt(cfg, log, to), n, 0)
  {
    NothingBefore(cfg, log, log, from - 1);
    WindowIsDifference(cfg, log, from, to, start, slices, m, n, 0);
  }

  lemma FirstNode(
    cfg: Config, trace: seq<Event>, log: seq<Action>, since: int, to: int, start: int,
    slices: seq<Slice>, m: SliceTree, view: View, run: NodeId, n: NodeId)
    requires Runnable(cfg, log) && !cfg.single && since < to && After(cfg, log).slices != [] && since < start
    requires Viewed(cfg, After(cfg, log), start, since, to, slices, m, run, view) && n in view && n >= 2
    requires Fed(cfg, trace, TreeAt(cfg, log, to)) && Clocked(trace)
    requires run in m && run == Run(|cfg.meta|, trace).thread.current
    ensures WindowNode(|cfg.meta|, [], trace, n, view[n]) && n < |Run(|cfg.meta|, trace).thread.nodes|
  {
    ViewedWindow(cfg, log, start, since, to, slices, m, run, view);
    NodeShown(cfg, m, view, n);
    FirstValues(cfg, trace, log, since, to, start, slices, m, n);
    FlagInView(cfg, trace, log, to, ViewPar(view), n, run);
    assert Stream(Run(|cfg.meta|, [])) == [];
  }

  /** What the viewer makes of it, with a start reading from within. */
  lemma FirstValue(cols: nat, trace: seq<Event>, n: NodeId, node: ViewNode, first: seq<int>, now: seq<int>)
    requires cols >= 2 && Clocked(trace) && WindowNode(cols, [], trace, n, node)
    requires 2 <= n < |Run(cols, trace).thread.nodes|
    requires |first| >= 2 && 0 <= first[1] <= LastTime(trace) && |now| >= 2 && now[1] == LastTime(trace)
    ensures 0 <= TimeIn(Run(cols, trace), n, LastTime(trace))
    ensures ProfileValueAll(false, Some(first), now, node, 0)
         == Min(TimeIn(Run(cols, trace), n, LastTime(trace)), LastTime(trace) - first[1])
  {
    var q := Run(cols, trace);
    assert Stream(Run(cols, [])) == [];
    TotalNotNegative(cols, trace, n);
    if Nesting.Open(q.thread, n) {
      StartedBefore(cols, trace, n);
    }
    ViewerArithmetic(node, first, now, node.values.all[0], Start(q.thread, n));
  }

  /** A window that begins with the first slice takes its start reading from that
      slice, made at its end. So the value shown is all the time spent so far, but
      no more than has passed since the first snapshot; and a window that is the
      first slice alone shows zero for every node. */
  lemma FirstWindowShowsTime(
    cfg: Config, before: seq<Event>, trace: seq<Event>, log: seq<Action>, early: seq<Action>, late: seq<Action>,
    since: int, slices: seq<Slice>, r: WindowReply, view: View, n: NodeId)
    requires Runnable(cfg, log) && !cfg.single && Clocked(trace) && before <= trace && early <= late <= log
    requires StoreEnds(cfg, before, early) && StoreEnds(cfg, trace, late) && Exposed(cfg, Names(Stack(trace)))
    requires var a, b := early[|early| - 1], late[|late| - 1];
      && since < a.time == After(cfg, log).start
      && Answered(cfg, After(cfg, log), a.time, since, b.time, slices, r, view)
    requires n in view && n >= 2
    ensures |view[n].values.all| == |cfg.meta| >= 2
    ensures r.start.Some? && r.now.Some? && |r.start.value| >= 2 && |r.now.value| >= 2
    ensures var value := ProfileValueAll(false, r.start, r.now.value, view[n], 0);
      && value == Min(TimeIn(Run(|cfg.meta|, trace), n, LastTime(trace)), LastTime(trace) - LastTime(before))
      && (early == late ==> value == 0)
  {
    var a, b := early[|early| - 1], late[|late| - 1];
    LastTimeGrows(before, trace);
    StoreStays(cfg, log, early);
    StoreStays(cfg, log, late);
    FirstReadings(cfg, After(cfg, log), a, b, since, slices, r, view);
    TreeIsFed(cfg, trace, log, late);
    RunningInSlice(cfg, trace, log, late);
    RanInWindow(cfg, After(cfg, log), a.time, since, b.time, slices, r.nodes, b.ni.running, view);
    FirstNode(cfg, trace, log, since, b.time, a.time, slices, r.nodes, view, b.ni.running, n);
    FirstValue(|cfg.meta|, trace, n, view[n], a.ni.values, b.ni.values);
  }

  lemma FirstReadings(
    cfg: Config, s: State, a: Action, b: Action, since: int, slices: seq<Slice>, r: WindowReply, view: View)
    requires StoredAt(s, a) && StoredAt(s, b) && since < a.time == s.start
    requires Answered(cfg, s, a.time, since, b.time, slices, r, view)
    ensures s.slices != [] && a.time <= b.time
    ensures r.start == Some(a.ni.values) && r.now == Some(b.ni.values) && r.running == Some(b.ni.running)
  {
    FirstHeaded(s, slices, a, b, since, r);
  }

  lemma FirstHeaded(s: State, slices: seq<Slice>, a: Action, b: Action, since: int, r: WindowReply)
    requires StoredAt(s, a) && StoredAt(s, b) && since < a.time == s.start
    requires slices == Padded(s.slices, Upto(s.start, b.time + 1))
    ensures Headed(slices, s.start, since + 1, b.time, r) ==>
      r.start == Some(a.ni.values) && r.now == Some(b.ni.values) && r.running == Some(b.ni.running)
  {
  }
}
