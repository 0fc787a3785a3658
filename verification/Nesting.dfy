/** Time nesting: the calls made by a call fit into its own time. */
module Nesting {
  import opened Wire
  import opened Sums
  import opened Forest
  import opened CallTree
  import opened CallTreeRuns

  /** Clock readings are positive and never go back. */
  ghost predicate Clocked(trace: seq<Event>) {
    trace == [] || (Clocked(trace[..|trace| - 1])
                    && trace[|trace| - 1].now > 0
                    && LastTime(trace[..|trace| - 1]) <= trace[|trace| - 1].now)
  }

  ghost function LastTime(trace: seq<Event>): int {
    if trace == [] then 0 else trace[|trace| - 1].now
  }

  ghost function NodePar(nodes: seq<MethodNode>): Parents {
    map n | 1 <= n < |nodes| :: nodes[n].parent
  }

  lemma NodeParWellFormed(nodes: seq<MethodNode>)
    requires CallTree.ValidTree(nodes)
    ensures WellFormed(NodePar(nodes))
  {
    forall n | n in NodePar(nodes)
      ensures Hangs(NodePar(nodes), n)
    {
      assert n >= 2 ==> LinkedUp(nodes, n);
    }
  }

  /** Node `n` has an open call: it is the current node or one of its ancestors. */
  ghost predicate Open(t: ThreadState, n: NodeId) {
    n >= 2 && Under(NodePar(t.nodes), n, t.current)
  }

  ghost function Start(t: ThreadState, n: NodeId): int {
    if n < |t.nodes| && |t.nodes[n].start| >= 2 then t.nodes[n].start[1] else 0
  }

  /** Time spent in `n` up to `now`: its completed calls and its open one. */
  ghost function TimeIn(p: Process, n: NodeId, now: int): int {
    Total(Stream(p), n, Column(0)) + if Open(p.thread, n) then now - Start(p.thread, n) else 0
  }

  ghost function TimeCol(p: Process, now: int): map<NodeId, int> {
    map n | 1 <= n < |p.thread.nodes| :: TimeIn(p, n, now)
  }

  /** The children of `n` together spent no more time than `n`. */
  ghost predicate Nested(p: Process, n: NodeId, now: int) {
    Sum(Kids(NodePar(p.thread.nodes), n), TimeCol(p, now)) <= TimeIn(p, n, now)
  }

  // ------------------------------------------------------ time alone passes

  lemma OpenParent(t: ThreadState, n: NodeId, c: NodeId)
    requires CallTree.ValidTree(t.nodes) && n >= 2 && c in Kids(NodePar(t.nodes), n) && Open(t, c)
    ensures Open(t, n)
  {
    var par := NodePar(t.nodes);
    NodeParWellFormed(t.nodes);
    UnderParent(par, n, c);
    assert Hangs(par, c);
    UnderTrans(par, n, c, t.current);
  }

  lemma OneOpenKid(t: ThreadState, n: NodeId, a: NodeId, b: NodeId)
    requires CallTree.ValidTree(t.nodes)
    requires a in Kids(NodePar(t.nodes), n) && b in Kids(NodePar(t.nodes), n) && Open(t, a) && Open(t, b)
    ensures a == b
  {
    var par := NodePar(t.nodes);
    NodeParWellFormed(t.nodes);
    assert t.current in Subtree(par, a) * Subtree(par, b);
    if a != b {
      KidsApart(par, n, a, b);
    }
  }

  /** Waiting keeps the nesting: of a node's children at most one is open, and
      only if the node is open too. */
  lemma NestedLater(p: Process, n: NodeId, now: int, later: int)
    requires Valid(p.thread) && 2 <= n < |p.thread.nodes|
    requires Nested(p, n, now) && now <= later
    ensures Nested(p, n, later)
  {
    var t := p.thread;
    var kids, d, e := Kids(NodePar(t.nodes), n), TimeCol(p, now), TimeCol(p, later);
    if c :| c in kids && Open(t, c) {
      OpenParent(t, n, c);
      forall k | k in kids && k != c
        ensures Get(e, k) == Get(d, k)
      {
        if Open(t, k) {
          OneOpenKid(t, n, c, k);
        }
      }
      SumBump(kids, d, e, c, later - now);
    } else {
      SumSame(kids, d, e);
    }
  }

  // --------------------------------------------------- events take no time

  /** At the time of a call or return, no node's time changes. */
  ghost predicate SameTimes(p: Process, q: Process, now: int) {
    && SameShape(p.thread.nodes, q.thread.nodes)
    && (forall n :: 1 <= n < |p.thread.nodes| ==> TimeIn(q, n, now) == TimeIn(p, n, now))
    && (forall n :: |p.thread.nodes| <= n < |q.thread.nodes| ==> TimeIn(q, n, now) == 0)
  }

  lemma NestedSame(p: Process, q: Process, n: NodeId, now: int)
    requires Valid(p.thread) && Valid(q.thread) && SameTimes(p, q, now)
    requires 2 <= n < |q.thread.nodes| && (n < |p.thread.nodes| ==> Nested(p, n, now))
    ensures Nested(q, n, now)
  {
    var a, b := NodePar(p.thread.nodes), NodePar(q.thread.nodes);
    NodeParWellFormed(p.thread.nodes);
    NodeParWellFormed(q.thread.nodes);
    var d, e := TimeCol(p, now), TimeCol(q, now);
    if n < |p.thread.nodes| {
      SumShrink(Kids(b, n), Kids(a, n), e);
      SumSame(Kids(a, n), d, e);
    } else {
      forall c | c in Kids(b, n)
        ensures Get(e, c) == 0
      {
        assert Hangs(b, c);
      }
      SumZero(Kids(b, n), e);
    }
  }

  lemma CallSameTimes(p: Process, name: NameId, now: int)
    requires Valid(p.thread) && StreamOk(Stream(p), p.thread)
    ensures SameTimes(p, Step(p, CallEvent(name, now)), now)
  {
    var t, q := p.thread, Step(p, CallEvent(name, now));
    var u := q.thread;
    CallShape(t, name, now);
    var a, b := NodePar(t.nodes), NodePar(u.nodes);
    NodeParWellFormed(t.nodes);
    NodeParWellFormed(u.nodes);
    forall n | 1 <= n < |u.nodes|
      ensures TimeIn(q, n, now) == if n < |t.nodes| then TimeIn(p, n, now) else 0
    {
      CallTotals(t, name, now, n);
      StreamTotals(p, u, n);
      UnderParent(b, n, u.current);
      UnderGrow(a, b, n, t.current);
      if Under(a, n, t.current) {
        UnderOrder(a, n, t.current);
      }
      if n >= |t.nodes| {
        assert forall k :: 0 <= k < |Stream(p)| ==> Describes(t.nodes, t.cols, Stream(p)[k]);
        NothingReported(Stream(p), n);
      }
    }
  }

  lemma ReturnSameTimes(p: Process, now: int)
    requires Valid(p.thread) && p.thread.current != ROOT
    ensures SameTimes(p, Step(p, ReturnEvent(now)), now)
  {
    var t, q := p.thread, Step(p, ReturnEvent(now));
    var u := q.thread;
    ReturnShape(t, now);
    assert NodePar(u.nodes) == NodePar(t.nodes);
    NodeParWellFormed(t.nodes);
    forall n | 1 <= n < |u.nodes|
      ensures TimeIn(q, n, now) == TimeIn(p, n, now)
    {
      ReturnTotals(t, now, n);
      StreamTotals(p, u, n);
      UnderParent(NodePar(t.nodes), n, t.current);
    }
  }

  // ------------------------------------------------------------ all runs

  /** In every reachable state, at every later time, the calls made by a node
      fit into it. */
  lemma {:induction false} RunNested(cols: nat, trace: seq<Event>, n: NodeId, now: int)
    requires cols >= 2 && Clocked(trace) && LastTime(trace) <= now
    requires 2 <= n < |Run(cols, trace).thread.nodes|
    ensures Nested(Run(cols, trace), n, now)
  {
    if trace != [] {
      var init, e := trace[..|trace| - 1], trace[|trace| - 1];
      var p := Run(cols, init);
      if n < |p.thread.nodes| {
        RunNested(cols, init, n, e.now);
      }
      RunStream(cols, init);
      StepNested(p, e, n);
      NestedLater(Run(cols, trace), n, e.now, now);
    }
  }

  lemma StepNested(p: Process, e: Event, n: NodeId)
    requires Valid(p.thread) && StreamOk(Stream(p), p.thread)
    requires 2 <= n < |Step(p, e).thread.nodes|
    requires n < |p.thread.nodes| ==> Nested(p, n, e.now)
    ensures Nested(Step(p, e), n, e.now)
  {
    match e
    case CallEvent(name, at) =>
      CallSameTimes(p, name, at);
      NestedSame(p, Step(p, e), n, at);
    case ReturnEvent(at) =>
      if p.thread.current != ROOT {
        ReturnShape(p.thread, at);
        ReturnSameTimes(p, at);
        NestedSame(p, Step(p, e), n, at);
      }
    case SnapshotEvent(at) =>
      StreamOfSnapshot(p, at);
      assert TimeCol(Step(p, e), at) == TimeCol(p, at);
  }
}
