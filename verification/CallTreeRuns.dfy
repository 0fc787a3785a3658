/** Whole runs of one thread, compared with a reference that only looks at the
    sequence of events: a stack, and counters per calling context. */
module CallTreeRuns {
  import opened Wire
  import opened CallTree

  /** A snapshot's time is that of the now-info sent along with the buffer. */
  datatype Event = CallEvent(name: NameId, now: int) | ReturnEvent(now: int) | SnapshotEvent(now: int)

  // ---------------------------------------------------------------- reference

  /** A calling context: the names from the root's child down. */
  type Context = seq<NameId>

  /** An open call. `epoch` is the number of snapshots taken before it began. */
  datatype Frame = Frame(name: NameId, start: int, epoch: nat)

  function Names(stack: seq<Frame>): Context {
    seq(|stack|, i requires 0 <= i < |stack| => stack[i].name)
  }

  function Epoch(trace: seq<Event>): nat {
    if trace == [] then 0
    else Epoch(trace[..|trace| - 1]) + if trace[|trace| - 1].SnapshotEvent? then 1 else 0
  }

  /** The open calls after a trace; a return with no open call does nothing. */
  function Stack(trace: seq<Event>): seq<Frame> {
    if trace == [] then []
    else
      var init, stack := trace[..|trace| - 1], Stack(trace[..|trace| - 1]);
      match trace[|trace| - 1]
      case CallEvent(name, now) => stack + [Frame(name, now, Epoch(init))]
      case ReturnEvent(_) => if stack == [] then [] else stack[..|stack| - 1]
      case SnapshotEvent(_) => stack
  }

  /** How often context `q` was called. */
  function Calls(trace: seq<Event>, q: Context): nat {
    if trace == [] then 0
    else
      var init, e := trace[..|trace| - 1], trace[|trace| - 1];
      Calls(init, q) + if e.CallEvent? && Names(Stack(init)) + [e.name] == q then 1 else 0
  }

  /** Summed durations of the completed calls of context `q`. */
  function Spent(trace: seq<Event>, q: Context): int {
    if trace == [] then 0
    else
      var init, e := trace[..|trace| - 1], trace[|trace| - 1];
      var stack := Stack(init);
      Spent(init, q)
      + if e.ReturnEvent? && stack != [] && Names(stack) == q then e.now - stack[|stack| - 1].start else 0
  }

  /** The start time last reported for context `q`: set by a call, and reset to
      zero by a return that happens in a later interval than its call. */
  function Shown(trace: seq<Event>, q: Context): int {
    if trace == [] then 0
    else
      var init, e := trace[..|trace| - 1], trace[|trace| - 1];
      var stack := Stack(init);
      if e.CallEvent? && Names(stack) + [e.name] == q then e.now
      else if e.ReturnEvent? && stack != [] && Names(stack) == q
              && stack[|stack| - 1].epoch < Epoch(init) then 0
      else Shown(init, q)
  }

  // -------------------------------------------------------------- the program

  /** A thread, with all the buffers it has handed out. */
  datatype Process = Process(thread: ThreadState, flushed: seq<seq<Record>>)

  ghost function Step(p: Process, e: Event): (r: Process)
    requires Valid(p.thread)
    ensures Valid(r.thread)
  {
    match e
    case CallEvent(name, now) => p.(thread := Call(p.thread, name, now))
    case ReturnEvent(now) => p.(thread := Return(p.thread, now))
    case SnapshotEvent(_) => Process(Snapshot(p.thread), p.flushed + [p.thread.front])
  }

  ghost function Run(cols: nat, trace: seq<Event>): (r: Process)
    requires cols >= 2
    ensures Valid(r.thread)
  {
    if trace == [] then
      NewThreadValid(cols);
      Process(NewThread(cols), [])
    else
      Step(Run(cols, trace[..|trace| - 1]), trace[|trace| - 1])
  }

  /** All records handed out so far, followed by those still in the buffer. */
  ghost function Stream(p: Process): seq<Record> {
    Flatten(p.flushed) + p.thread.front
  }

  lemma StreamOfSnapshot(p: Process, now: int)
    requires Valid(p.thread)
    ensures Stream(Step(p, SnapshotEvent(now))) == Stream(p)
  {
    var bufs := p.flushed + [p.thread.front];
    assert bufs[..|bufs| - 1] == p.flushed;
  }

  // ------------------------------------------------- contexts of tree nodes

  /** The context a node stands for. */
  ghost function Path(nodes: seq<MethodNode>, n: NodeId): Context
    requires ValidTree(nodes) && 1 <= n < |nodes|
    decreases n
  {
    if n == ROOT then []
    else
      assert LinkedUp(nodes, n);
      Path(nodes, nodes[n].parent) + [nodes[n].name]
  }

  /** Follows the child maps down from the root. */
  ghost function Lookup(nodes: seq<MethodNode>, q: Context): (r: Option<NodeId>)
    requires ValidTree(nodes)
    ensures r.Some? ==> 1 <= r.value < |nodes|
    decreases |q|
  {
    if q == [] then Some(ROOT)
    else
      var up := Lookup(nodes, q[..|q| - 1]);
      if up.None? then None
      else
        var kids := nodes[up.value].children;
        assert LinkedDown(nodes, up.value);
        if q[|q| - 1] in kids then Some(kids[q[|q| - 1]]) else None
  }

  /** Nodes and contexts correspond one to one. */
  lemma {:induction false} LookupPath(nodes: seq<MethodNode>, n: NodeId)
    requires ValidTree(nodes) && 1 <= n < |nodes|
    ensures Lookup(nodes, Path(nodes, n)) == Some(n)
    decreases n
  {
    if n != ROOT {
      assert LinkedUp(nodes, n);
      var q := Path(nodes, n);
      assert q[..|q| - 1] == Path(nodes, nodes[n].parent);
      LookupPath(nodes, nodes[n].parent);
    }
  }

  lemma {:induction false} PathLookup(nodes: seq<MethodNode>, q: Context)
    requires ValidTree(nodes) && Lookup(nodes, q).Some?
    ensures Path(nodes, Lookup(nodes, q).value) == q
    decreases |q|
  {
    if q != [] {
      var up := Lookup(nodes, q[..|q| - 1]).value;
      PathLookup(nodes, q[..|q| - 1]);
      assert LinkedDown(nodes, up);
      assert q == q[..|q| - 1] + [q[|q| - 1]];
    }
  }

  lemma PathInjective(nodes: seq<MethodNode>, a: NodeId, b: NodeId)
    requires ValidTree(nodes) && 1 <= a < |nodes| && 1 <= b < |nodes|
    requires Path(nodes, a) == Path(nodes, b)
    ensures a == b
  {
    LookupPath(nodes, a);
    LookupPath(nodes, b);
  }

  /** All prefixes of a known context are known, by different nodes: so the
      nodes of the open calls are pairwise distinct, even under recursion. */
  lemma {:induction false} PrefixNodesDiffer(nodes: seq<MethodNode>, q: Context, i: nat, j: nat)
    requires ValidTree(nodes) && Lookup(nodes, q).Some? && i < j <= |q|
    ensures Lookup(nodes, q[..i]).Some? && Lookup(nodes, q[..j]).Some?
    ensures Lookup(nodes, q[..i]).value != Lookup(nodes, q[..j]).value
    decreases |q|
  {
    if j < |q| {
      var init := q[..|q| - 1];
      assert init[..i] == q[..i] && init[..j] == q[..j];
      PrefixNodesDiffer(nodes, init, i, j);
    } else {
      assert q[..j] == q;
      KnownPrefix(nodes, q, i);
      PathLookup(nodes, q);
      PathLookup(nodes, q[..i]);
    }
  }

  /** A context was only reached through all its prefixes. */
  lemma {:induction false} KnownPrefix(nodes: seq<MethodNode>, q: Context, i: nat)
    requires ValidTree(nodes) && Lookup(nodes, q).Some? && i <= |q|
    ensures Lookup(nodes, q[..i]).Some?
    decreases |q|
  {
    if i == |q| {
      assert q[..i] == q;
    } else {
      assert q[..|q| - 1][..i] == q[..i];
      KnownPrefix(nodes, q[..|q| - 1], i);
    }
  }

  /** The path of a node only depends on the nodes up to it. */
  lemma {:induction false} PathSame(a: seq<MethodNode>, b: seq<MethodNode>, n: NodeId)
    requires ValidTree(a) && ValidTree(b) && 1 <= n < |a| && n < |b|
    requires forall m :: 1 <= m <= n ==> a[m].name == b[m].name && a[m].parent == b[m].parent
    ensures Path(a, n) == Path(b, n)
    decreases n
  {
    if n != ROOT {
      assert LinkedUp(a, n);
      PathSame(a, b, a[n].parent);
    }
  }

  /** The open calls are exactly the chain from `n` up to the root, and each
      node of the chain remembers when its open call began. */
  ghost predicate OnStack(t: ThreadState, n: NodeId, stack: seq<Frame>)
    requires Valid(t) && 1 <= n < |t.nodes|
    decreases n
  {
    if n == ROOT then stack == []
    else
      assert LinkedUp(t.nodes, n) && Indexed(t, n);
      && stack != []
      && var top := stack[|stack| - 1];
      && t.nodes[n].name == top.name
      && t.nodes[n].start[1] == top.start
      && t.nodes[n].generation == top.epoch + 1
      && OnStack(t, t.nodes[n].parent, stack[..|stack| - 1])
  }

  lemma {:induction false} OnStackSame(t: ThreadState, u: ThreadState, n: NodeId, stack: seq<Frame>)
    requires Valid(t) && Valid(u) && 1 <= n < |t.nodes| && n < |u.nodes|
    requires forall m :: 1 <= m <= n ==>
               && u.nodes[m].name == t.nodes[m].name && u.nodes[m].parent == t.nodes[m].parent
               && u.nodes[m].start == t.nodes[m].start
               && u.nodes[m].generation == t.nodes[m].generation
    ensures OnStack(u, n, stack) == OnStack(t, n, stack)
    decreases n
  {
    if n != ROOT && stack != [] {
      assert LinkedUp(t.nodes, n) && Indexed(t, n) && Indexed(u, n);
      OnStackSame(t, u, t.nodes[n].parent, stack[..|stack| - 1]);
    }
  }

  lemma {:induction false} OnStackPath(t: ThreadState, n: NodeId, stack: seq<Frame>)
    requires Valid(t) && 1 <= n < |t.nodes| && OnStack(t, n, stack)
    ensures Path(t.nodes, n) == Names(stack)
    decreases n
  {
    if n != ROOT {
      assert LinkedUp(t.nodes, n);
      OnStackPath(t, t.nodes[n].parent, stack[..|stack| - 1]);
      assert Names(stack) == Names(stack[..|stack| - 1]) + [stack[|stack| - 1].name];
    }
  }

  // ------------------------------------------------- what each step changes

  ghost predicate SameShape(a: seq<MethodNode>, b: seq<MethodNode>) {
    && |a| <= |b|
    && forall m :: 1 <= m < |a| ==> a[m].name == b[m].name && a[m].parent == b[m].parent
  }

  /** `b` is `a` with a child of `cur` called `name`, namely `c`. */
  ghost predicate Entered(a: seq<MethodNode>, b: seq<MethodNode>, cur: NodeId, name: NameId, c: NodeId)
    requires 1 <= cur < |a| && |a| <= |b|
  {
    && SameShape(a, b)
    && c < |b| && b[c].parent == cur && b[c].name == name
    && (forall m :: 1 <= m < |a| && m != cur ==> b[m].children == a[m].children)
    && b[cur].children == a[cur].children[name := c]
    && (if name in a[cur].children then |b| == |a| && a[cur].children[name] == c
        else |b| == |a| + 1 && c == |a| && b[c].children == map[])
  }

  lemma CallShape(t: ThreadState, name: NameId, now: int)
    requires Valid(t)
    ensures var u := Call(t, name, now);
      && SameShape(t.nodes, u.nodes)
      && u.cols == t.cols && u.generation == t.generation
      && u.current > t.current && u.nodes[u.current].parent == t.current
      && u.nodes[u.current].name == name
      && |u.nodes[u.current].start| >= 2 && u.nodes[u.current].start[1] == now
      && u.nodes[u.current].generation == t.generation
      && (forall m :: 1 <= m < |t.nodes| && m != u.current ==> u.nodes[m].start == t.nodes[m].start)
      && (forall m :: 1 <= m < |t.nodes| && m != u.current ==>
            u.nodes[m].generation == t.nodes[m].generation)
      && Entered(t.nodes, u.nodes, t.current, name, u.current)
  {
    var u := Call(t, name, now);
    EnterValid(t, name);
    TouchValid(Enter(t, name));
    assert LinkedUp(u.nodes, u.current);
  }

  lemma ReturnShape(t: ThreadState, now: int)
    requires Valid(t) && t.current != ROOT
    ensures var u := Return(t, now);
      && SameShape(t.nodes, u.nodes) && |u.nodes| == |t.nodes|
      && u.cols == t.cols && u.generation == t.generation
      && u.current == t.nodes[t.current].parent
      && (forall m :: 1 <= m < |t.nodes| ==> u.nodes[m].start == t.nodes[m].start)
      && (forall m :: 1 <= m < |t.nodes| ==> u.nodes[m].children == t.nodes[m].children)
      && (forall m :: 1 <= m < |t.nodes| && m != t.current ==>
            u.nodes[m].generation == t.nodes[m].generation)
      && u.nodes[t.current].generation == t.generation
  {
    TouchValid(t);
    var u := Touch(t);
    assert Indexed(u, u.current) && Owned(u, u.nodes[u.current].index);
  }

  /** Creating an empty record changes no total. */
  lemma TouchTotals(t: ThreadState, n: NodeId, m: Measure)
    requires Valid(t) && t.current >= 2
    ensures Total(Touch(t).front, n, m) == Total(t.front, n, m)
    ensures Latest(Touch(t).front, n) ==
      if n == t.current && t.nodes[n].generation != t.generation then Some(FreshRecord(t, n))
      else Latest(t.front, n)
  {
    if t.nodes[t.current].generation != t.generation {
      var r := FreshRecord(t, t.current);
      TotalAppend(t.front, [r], n, m);
      LatestAppend(t.front, [r], n);
      assert [r][..0] == [];
    }
  }

  lemma LatestOfCurrent(t: ThreadState)
    requires Valid(t) && HasRecord(t) && t.nodes[t.current].generation == t.generation
    ensures Latest(t.front, t.current) == Some(CurrentRecord(t))
  {
    GenerationIffRecord(t, t.current);
    assert Indexed(t, t.current);
    LatestUpdate(t.front, t.nodes[t.current].index, CurrentRecord(t), t.current);
    assert t.front[t.nodes[t.current].index := CurrentRecord(t)] == t.front;
  }

  /** Rewriting the one record of a node. */
  lemma RecordRewritten(a: seq<Record>, k: nat, r: Record, b: seq<Record>, n: NodeId)
    requires k < |a| && r.id == a[k].id && b == a[k := r] && OneRecordPerNode(a)
    ensures Total(b, n, CallCount)
         == Total(a, n, CallCount) + if n == r.id then r.callCount - a[k].callCount else 0
    ensures Total(b, n, Column(0))
         == Total(a, n, Column(0)) + if n == r.id then Amount(r, Column(0)) - Amount(a[k], Column(0)) else 0
    ensures Latest(b, n) == if n == r.id then Some(r) else Latest(a, n)
  {
    TotalUpdate(a, k, r, n, CallCount);
    TotalUpdate(a, k, r, n, Column(0));
    LatestUpdate(a, k, r, n);
  }

  /** A call adds one to its node's count and makes `now` its reported start. */
  lemma CallTotals(t: ThreadState, name: NameId, now: int, n: NodeId)
    requires Valid(t)
    ensures var u := Call(t, name, now);
      && Total(u.front, n, CallCount) == Total(t.front, n, CallCount) + (if n == u.current then 1 else 0)
      && Total(u.front, n, Column(0)) == Total(t.front, n, Column(0))
      && (n != u.current ==> Latest(u.front, n) == Latest(t.front, n))
      && LatestAmount(u.front, u.current, Column(1)) == now
      && Latest(u.front, u.current).Some?
  {
    EnterValid(t, name);
    var e := Enter(t, name);
    TouchValid(e);
    TouchTotals(e, n, CallCount);
    TouchTotals(e, n, Column(0));
    var v, u := Touch(e), Call(t, name, now);
    assert u == BeginCall(v, now);
    CallRewrites(v, now, u);
    var k := v.nodes[v.current].index;
    RecordRewritten(v.front, k, u.front[k], u.front, n);
    RecordRewritten(v.front, k, u.front[k], u.front, u.current);
  }

  /** A call rewrites one record: it counts, and makes `now` the start. */
  lemma CallRewrites(v: ThreadState, now: int, u: ThreadState)
    requires Valid(v) && HasRecord(v) && v.nodes[v.current].generation == v.generation && u == BeginCall(v, now)
    ensures OneRecordPerNode(v.front)
    ensures var k := v.nodes[v.current].index;
      && k < |u.front| == |v.front| && u.front == v.front[k := u.front[k]]
      && u.front[k].id == v.front[k].id == u.current && u.front[k].callCount == v.front[k].callCount + 1
      && Amount(u.front[k], Column(0)) == Amount(v.front[k], Column(0)) && Amount(u.front[k], Column(1)) == now
  {
    assert Indexed(v, v.current);
    GenerationIffRecord(v, v.current);
  }

  /** A return adds the time since the start to its node's column 0, and keeps
      the reported start only if the node already had a record this generation. */
  lemma ReturnTotals(t: ThreadState, now: int, n: NodeId)
    requires Valid(t) && t.current != ROOT
    ensures Indexed(t, t.current)
    ensures var u := Return(t, now);
      && Total(u.front, n, CallCount) == Total(t.front, n, CallCount)
      && Total(u.front, n, Column(0)) == Total(t.front, n, Column(0))
         + (if n == t.current then now - t.nodes[n].start[1] else 0)
      && (n != t.current ==> Latest(u.front, n) == Latest(t.front, n))
      && Latest(u.front, t.current).Some?
      && LatestAmount(u.front, t.current, Column(1))
         == (if t.nodes[t.current].generation == t.generation then LatestAmount(t.front, t.current, Column(1))
             else 0)
      && (t.nodes[t.current].generation == t.generation ==> Latest(t.front, t.current).Some?)
  {
    TouchValid(t);
    TouchTotals(t, n, CallCount);
    TouchTotals(t, n, Column(0));
    TouchTotals(t, t.current, Column(0));
    var v, u := Touch(t), Return(t, now);
    var k := v.nodes[t.current].index;
    assert Indexed(t, t.current);
    LatestOfCurrent(v);
    ReturnRewrites(t, v, now);
    RecordRewritten(v.front, k, u.front[k], u.front, n);
    RecordRewritten(v.front, k, u.front[k], u.front, t.current);
  }

  /** A return rewrites one record: it adds the time spent to column 0. */
  lemma ReturnRewrites(t: ThreadState, v: ThreadState, now: int)
    requires Valid(t) && t.current != ROOT && v == Touch(t) && Valid(v) && HasRecord(v)
    requires v.nodes[t.current].generation == v.generation
    ensures |t.nodes[t.current].start| >= 2 && OneRecordPerNode(v.front)
    ensures var k, u := v.nodes[t.current].index, Return(t, now);
      && k < |u.front| == |v.front| && u.front == v.front[k := u.front[k]]
      && u.front[k].id == v.front[k].id == t.current && u.front[k].callCount == v.front[k].callCount
      && Amount(u.front[k], Column(1)) == Amount(v.front[k], Column(1))
      && Amount(u.front[k], Column(0)) == Amount(v.front[k], Column(0)) + (now - t.nodes[t.current].start[1])
  {
    var k := v.nodes[t.current].index;
    assert Indexed(t, t.current) && Indexed(v, t.current) && Owned(v, k);
    GenerationIffRecord(v, t.current);
    assert Return(t, now) == EndCall(v, now);
  }

  /** What the stream tells about a node, from what the front buffer tells. */
  lemma StreamTotals(p: Process, u: ThreadState, n: NodeId)
    ensures var s, s', a, b := Stream(p), Stream(p.(thread := u)), p.thread.front, u.front;
      && Total(s', n, CallCount) - Total(s, n, CallCount) == Total(b, n, CallCount) - Total(a, n, CallCount)
      && Total(s', n, Column(0)) - Total(s, n, Column(0)) == Total(b, n, Column(0)) - Total(a, n, Column(0))
      && (Latest(b, n).Some? ==> Latest(s', n) == Latest(b, n))
      && (Latest(a, n).Some? ==> Latest(s, n) == Latest(a, n))
      && (Latest(b, n) == Latest(a, n) ==> Latest(s', n) == Latest(s, n))
  {
    var sent := Flatten(p.flushed);
    TotalAppend(sent, u.front, n, CallCount);
    TotalAppend(sent, p.thread.front, n, CallCount);
    TotalAppend(sent, u.front, n, Column(0));
    TotalAppend(sent, p.thread.front, n, Column(0));
    LatestAppend(sent, u.front, n);
    LatestAppend(sent, p.thread.front, n);
  }

  lemma {:induction false} LookupSame(a: seq<MethodNode>, b: seq<MethodNode>, q: Context)
    requires ValidTree(a) && ValidTree(b) && |a| == |b|
    requires forall m :: 1 <= m < |a| ==> a[m].children == b[m].children
    ensures Lookup(a, q) == Lookup(b, q)
    decreases |q|
  {
    if q != [] {
      LookupSame(a, b, q[..|q| - 1]);
    }
  }

  // ------------------------------------------------------- the record stream

  /** Record `k` comes after a record of its parent, unless that is the root. */
  ghost predicate Introduced(s: seq<Record>, k: nat)
    requires k < |s|
  {
    && 1 <= s[k].parent < s[k].id
    && (s[k].parent == ROOT || exists j :: 0 <= j < k && s[j].id == s[k].parent)
  }

  ghost predicate Causal(s: seq<Record>) {
    forall k :: 0 <= k < |s| ==> Introduced(s, k)
  }

  ghost predicate Describes(nodes: seq<MethodNode>, cols: nat, r: Record) {
    && 2 <= r.id < |nodes|
    && r.parent == nodes[r.id].parent
    && r.name == nodes[r.id].name
    && |r.values| == cols
  }

  ghost predicate Reported(s: seq<Record>, n: NodeId) {
    exists k :: 0 <= k < |s| && s[k].id == n
  }

  /** `b` is `a` with some counters changed and at most one record appended. */
  ghost predicate Grown(a: seq<Record>, b: seq<Record>, n: NodeId) {
    && |a| <= |b| <= |a| + 1
    && (forall k :: 0 <= k < |a| ==>
          b[k].id == a[k].id && b[k].parent == a[k].parent && b[k].name == a[k].name)
    && (|b| == |a| + 1 ==> b[|a|].id == n)
    && Reported(b, n)
  }

  lemma CallGrows(t: ThreadState, name: NameId, now: int)
    requires Valid(t)
    ensures Grown(t.front, Call(t, name, now).front, Call(t, name, now).current)
  {
    EnterValid(t, name);
    TouchValid(Enter(t, name));
    var u := Call(t, name, now);
    assert Indexed(u, u.current);
    assert u.front[u.nodes[u.current].index].id == u.current;
  }

  lemma ReturnGrows(t: ThreadState, now: int)
    requires Valid(t) && t.current != ROOT
    ensures Grown(t.front, Return(t, now).front, t.current)
  {
    TouchValid(t);
    var u := Return(t, now);
    assert Indexed(u, t.current);
    assert u.front[u.nodes[t.current].index].id == t.current;
  }

  ghost predicate StreamOk(s: seq<Record>, t: ThreadState) {
    && (forall k :: 0 <= k < |s| ==> Describes(t.nodes, t.cols, s[k]))
    && (forall n :: 2 <= n < |t.nodes| ==> Reported(s, n))
    && Causal(s)
  }

  lemma GrownOk(sent: seq<Record>, t: ThreadState, u: ThreadState, n: NodeId)
    requires Valid(t) && Valid(u) && u.cols == t.cols
    requires StreamOk(sent + t.front, t)
    requires Grown(t.front, u.front, n)
    requires SameShape(t.nodes, u.nodes) && 2 <= n < |u.nodes|
    requires |u.nodes| == |t.nodes| || (|u.nodes| == |t.nodes| + 1 && n == |t.nodes|)
    ensures StreamOk(sent + u.front, u)
  {
    var a, b := sent + t.front, sent + u.front;
    forall k | 0 <= k < |b|
      ensures Describes(u.nodes, u.cols, b[k])
    {
      if k < |sent| {
        assert Describes(t.nodes, t.cols, a[k]);
      } else {
        assert Owned(u, k - |sent|);
      }
    }
    forall m | 2 <= m < |u.nodes|
      ensures Reported(b, m)
    {
      if m < |t.nodes| {
        assert Reported(a, m);
        var k :| 0 <= k < |a| && a[k].id == m;
        assert b[k].id == m;
      } else {
        var k :| 0 <= k < |u.front| && u.front[k].id == n;
        assert b[|sent| + k].id == m;
      }
    }
    forall k | 0 <= k < |b|
      ensures Introduced(b, k)
    {
      assert Describes(u.nodes, u.cols, b[k]);
      if k < |a| {
        assert Introduced(a, k);
        if a[k].parent != ROOT {
          var j :| 0 <= j < k && a[j].id == a[k].parent;
          assert b[j].id == b[k].parent;
        }
      } else {
        assert LinkedUp(u.nodes, n);
        var up := u.nodes[n].parent;
        if up != ROOT {
          assert Reported(a, up);
          var j :| 0 <= j < |a| && a[j].id == up;
          assert b[j].id == up;
        }
      }
    }
  }

  /** A record with zeros in all columns but the first two. */
  predicate OthersZero(r: Record) {
    forall i :: 2 <= i < |r.values| ==> r.values[i] == 0
  }

  ghost predicate AllOthersZero(s: seq<Record>) {
    forall k {:trigger OthersZero(s[k])} :: 0 <= k < |s| ==> OthersZero(s[k])
  }

  lemma CallOthers(t: ThreadState, name: NameId, now: int)
    requires Valid(t) && AllOthersZero(t.front)
    ensures AllOthersZero(Call(t, name, now).front)
  {
    EnterValid(t, name);
    var e := Enter(t, name);
    TouchValid(e);
    assert AllOthersZero(Touch(e).front);
    assert OthersZero(CurrentRecord(Touch(e)));
  }

  lemma ReturnOthers(t: ThreadState, now: int)
    requires Valid(t) && AllOthersZero(t.front)
    ensures AllOthersZero(Return(t, now).front)
  {
    if t.current != ROOT {
      TouchValid(t);
      assert AllOthersZero(Touch(t).front);
      assert OthersZero(CurrentRecord(Touch(t)));
    }
  }

  lemma OthersAppend(a: seq<Record>, b: seq<Record>)
    requires AllOthersZero(a) && AllOthersZero(b)
    ensures AllOthersZero(a + b)
  {
  }

  lemma {:induction false} RunOthers(cols: nat, trace: seq<Event>)
    requires cols >= 2
    ensures AllOthersZero(Flatten(Run(cols, trace).flushed)) && AllOthersZero(Run(cols, trace).thread.front)
  {
    if trace != [] {
      var p, e := Run(cols, trace[..|trace| - 1]), trace[|trace| - 1];
      RunOthers(cols, trace[..|trace| - 1]);
      match e
      case CallEvent(name, now) => CallOthers(p.thread, name, now);
      case ReturnEvent(now) => ReturnOthers(p.thread, now);
      case SnapshotEvent(_) =>
        var bufs := p.flushed + [p.thread.front];
        assert bufs[..|bufs| - 1] == p.flushed;
        OthersAppend(Flatten(p.flushed), p.thread.front);
    }
  }

  /** Every record of every run has zeros in the columns from 2 on. */
  lemma EventColumnsZero(cols: nat, trace: seq<Event>)
    requires cols >= 2
    ensures var s := Stream(Run(cols, trace));
      forall k, i :: 0 <= k < |s| && 2 <= i < |s[k].values| ==> s[k].values[i] == 0
  {
    RunOthers(cols, trace);
    OthersAppend(Flatten(Run(cols, trace).flushed), Run(cols, trace).thread.front);
    var s := Stream(Run(cols, trace));
    forall k, i | 0 <= k < |s| && 2 <= i < |s[k].values|
      ensures s[k].values[i] == 0
    {
      assert OthersZero(s[k]);
    }
  }

  /** Every record describes its node truthfully, every node was reported, and
      no record comes before one of its parent. */
  lemma {:induction false} RunStream(cols: nat, trace: seq<Event>)
    requires cols >= 2
    ensures StreamOk(Stream(Run(cols, trace)), Run(cols, trace).thread)
  {
    if trace != [] {
      var init, e := trace[..|trace| - 1], trace[|trace| - 1];
      RunStream(cols, init);
      RunStack(cols, init);
      var p := Run(cols, init);
      var t, u, sent := p.thread, Run(cols, trace).thread, Flatten(p.flushed);
      match e
      case CallEvent(name, now) =>
        CallShape(t, name, now);
        CallGrows(t, name, now);
        GrownOk(sent, t, u, u.current);
      case ReturnEvent(now) =>
        if t.current != ROOT {
          ReturnShape(t, now);
          ReturnGrows(t, now);
          GrownOk(sent, t, u, t.current);
        }
      case SnapshotEvent(_) =>
        StreamOfSnapshot(p, e.now);
    }
  }

  lemma {:induction false} NothingReported(s: seq<Record>, n: NodeId)
    requires !Reported(s, n)
    ensures Latest(s, n).None?
    ensures forall m :: Total(s, n, m) == 0
  {
    if s != [] {
      assert s[|s| - 1].id != n;
      var init := s[..|s| - 1];
      forall k | 0 <= k < |init|
        ensures init[k].id != n
      {
        assert s[k].id != n;
      }
      NothingReported(init, n);
    }
  }

  // -------------------------------------------------------------- main results

  /** The chain from the current node to the root is the reference stack, and each
      of its nodes still has the start value of its open call. */
  lemma {:induction false} RunStack(cols: nat, trace: seq<Event>)
    requires cols >= 2
    ensures var t := Run(cols, trace).thread;
      && OnStack(t, t.current, Stack(trace))
      && t.generation == Epoch(trace) + 1
      && t.cols == cols
  {
    if trace != [] {
      var init, e := trace[..|trace| - 1], trace[|trace| - 1];
      RunStack(cols, init);
      var t, u := Run(cols, init).thread, Run(cols, trace).thread;
      match e
      case CallEvent(name, now) => CallOnStack(t, name, now, Stack(init));
      case ReturnEvent(now) => ReturnOnStack(t, now, Stack(init));
      case SnapshotEvent(_) => OnStackSame(t, u, t.current, Stack(init));
    }
  }

  lemma CallOnStack(t: ThreadState, name: NameId, now: int, stack: seq<Frame>)
    requires Valid(t) && OnStack(t, t.current, stack)
    ensures var u := Call(t, name, now);
      && OnStack(u, u.current, stack + [Frame(name, now, t.generation - 1)])
      && u.generation == t.generation && u.cols == t.cols
  {
    var u, more := Call(t, name, now), stack + [Frame(name, now, t.generation - 1)];
    CallShape(t, name, now);
    OnStackSame(t, u, t.current, stack);
    assert more[..|more| - 1] == stack;
    assert Indexed(u, u.current);
  }

  lemma ReturnOnStack(t: ThreadState, now: int, stack: seq<Frame>)
    requires Valid(t) && OnStack(t, t.current, stack)
    ensures var u := Return(t, now);
      && OnStack(u, u.current, if stack == [] then [] else stack[..|stack| - 1])
      && u.generation == t.generation && u.cols == t.cols
  {
    if t.current != ROOT {
      var u := Return(t, now);
      ReturnShape(t, now);
      assert LinkedUp(t.nodes, t.current);
      OnStackSame(t, u, u.current, stack[..|stack| - 1]);
    }
  }

  /** The path of the current node is the reference stack's. */
  lemma RunCurrent(cols: nat, trace: seq<Event>)
    requires cols >= 2
    ensures var t := Run(cols, trace).thread;
      Path(t.nodes, t.current) == Names(Stack(trace))
  {
    RunStack(cols, trace);
    var t := Run(cols, trace).thread;
    OnStackPath(t, t.current, Stack(trace));
  }

  /** A call adds at most one context: the one it enters. */
  lemma {:induction false} LookupEntered(
    a: seq<MethodNode>, b: seq<MethodNode>, cur: NodeId, name: NameId, c: NodeId, q: Context)
    requires ValidTree(a) && ValidTree(b) && 1 <= cur < |a| <= |b|
    requires Entered(a, b, cur, name, c)
    ensures Lookup(b, q) == if Lookup(a, q).Some? then Lookup(a, q)
                            else if q == Path(a, cur) + [name] then Some(c) else None
    decreases |q|
  {
    if q != [] {
      var up := q[..|q| - 1];
      assert q == up + [q[|q| - 1]];
      LookupEntered(a, b, cur, name, c, up);
      LookupPath(a, cur);
      var target := Path(a, cur) + [name];
      assert target[..|target| - 1] == Path(a, cur);
      if Lookup(a, up).Some? {
        PathLookup(a, up);
        assert LinkedDown(a, Lookup(a, up).value);
      }
    }
  }

  lemma LookupCall(t: ThreadState, name: NameId, now: int, q: Context)
    requires Valid(t)
    ensures var u, target := Call(t, name, now), Path(t.nodes, t.current) + [name];
      && Lookup(u.nodes, q) == (if q == target then Some(u.current) else Lookup(t.nodes, q))
      && (q != target ==> Lookup(u.nodes, q) != Some(u.current))
      && (Lookup(t.nodes, q).None? && q == target ==> u.current == |t.nodes|)
  {
    var u := Call(t, name, now);
    CallShape(t, name, now);
    LookupEntered(t.nodes, u.nodes, t.current, name, u.current, q);
    assert LinkedUp(u.nodes, u.current);
    PathSame(t.nodes, u.nodes, t.current);
    LookupPath(u.nodes, u.current);
    if Lookup(u.nodes, q) == Some(u.current) {
      PathLookup(u.nodes, q);
    }
    if q == Path(t.nodes, t.current) + [name] {
      LookupPath(t.nodes, t.current);
      assert q[..|q| - 1] == Path(t.nodes, t.current);
    }
  }

  /** What the stream says about context `q`. */
  ghost predicate Tracks(p: Process, q: Context, calls: int, spent: int, shown: int)
    requires Valid(p.thread)
  {
    match Lookup(p.thread.nodes, q)
    case None => calls == 0 && spent == 0 && shown == 0
    case Some(n) =>
      && Total(Stream(p), n, CallCount) == calls
      && Total(Stream(p), n, Column(0)) == spent
      && LatestAmount(Stream(p), n, Column(1)) == shown
  }

  lemma TracksCall(p: Process, name: NameId, now: int, q: Context, calls: int, spent: int, shown: int)
    requires Valid(p.thread) && StreamOk(Stream(p), p.thread)
    requires Tracks(p, q, calls, spent, shown)
    ensures var hit := q == Path(p.thread.nodes, p.thread.current) + [name];
      Tracks(Step(p, CallEvent(name, now)), q,
             if hit then calls + 1 else calls, spent, if hit then now else shown)
  {
    var t := p.thread;
    var u := Call(t, name, now);
    LookupCall(t, name, now, q);
    if Lookup(u.nodes, q).Some? {
      var n := Lookup(u.nodes, q).value;
      CallTotals(t, name, now, n);
      StreamTotals(p, u, n);
      if Lookup(t.nodes, q).None? {
        assert forall k :: 0 <= k < |Stream(p)| ==> Describes(t.nodes, t.cols, Stream(p)[k]);
        NothingReported(Stream(p), n);
      } else {
        EnteredChild(t, name, now, q);
      }
    }
  }

  /** A context that was known before the call keeps its node. */
  lemma EnteredChild(t: ThreadState, name: NameId, now: int, q: Context)
    requires Valid(t) && Lookup(t.nodes, q).Some?
    ensures Lookup(Call(t, name, now).nodes, q) == Lookup(t.nodes, q)
  {
    CallShape(t, name, now);
    var u := Call(t, name, now);
    LookupEntered(t.nodes, u.nodes, t.current, name, u.current, q);
  }

  lemma TracksReturn(p: Process, now: int, q: Context, calls: int, spent: int, shown: int)
    requires Valid(p.thread) && p.thread.current != ROOT
    requires Tracks(p, q, calls, spent, shown)
    ensures Indexed(p.thread, p.thread.current)
    ensures var t := p.thread;
      var node, hit := t.nodes[t.current], q == Path(t.nodes, t.current);
      Tracks(Step(p, ReturnEvent(now)), q, calls, if hit then spent + (now - node.start[1]) else spent,
             if hit && node.generation != t.generation then 0 else shown)
  {
    var t := p.thread;
    var u := Return(t, now);
    ReturnShape(t, now);
    ReturnTotals(t, now, t.current);
    LookupPath(t.nodes, t.current);
    LookupSame(t.nodes, u.nodes, q);
    if Lookup(t.nodes, q).Some? {
      PathLookup(t.nodes, q);
      ReturnStreamed(p, now, Lookup(t.nodes, q).value);
    }
  }

  /** What a return changes in the stream of records. */
  lemma ReturnStreamed(p: Process, now: int, n: NodeId)
    requires Valid(p.thread) && p.thread.current != ROOT
    ensures Indexed(p.thread, p.thread.current)
    ensures var t, s, s' := p.thread, Stream(p), Stream(Step(p, ReturnEvent(now)));
      && Total(s', n, CallCount) == Total(s, n, CallCount)
      && Total(s', n, Column(0))
         == Total(s, n, Column(0)) + (if n == t.current then now - t.nodes[n].start[1] else 0)
      && LatestAmount(s', n, Column(1))
         == if n == t.current && t.nodes[n].generation != t.generation then 0 else LatestAmount(s, n, Column(1))
  {
    ReturnTotals(p.thread, now, n);
    StreamTotals(p, Return(p.thread, now), n);
  }

  /** The lazy delta records refine plain counters: for every context, the
      records handed out so far and those still in the buffer add up to the
      reference counters, and the last one carries the reference start time.
      A context no node stands for was never called. */
  lemma {:induction false} RunCounters(cols: nat, trace: seq<Event>, q: Context)
    requires cols >= 2
    ensures Tracks(Run(cols, trace), q, Calls(trace, q), Spent(trace, q), Shown(trace, q))
  {
    if trace == [] {
      assert Stream(Run(cols, trace)) == [];
    } else {
      var init, e := trace[..|trace| - 1], trace[|trace| - 1];
      RunCounters(cols, init, q);
      RunCurrent(cols, init);
      RunStack(cols, init);
      var p := Run(cols, init);
      var calls, spent, shown := Calls(init, q), Spent(init, q), Shown(init, q);
      match e
      case CallEvent(name, now) =>
        RunStream(cols, init);
        TracksCall(p, name, now, q, calls, spent, shown);
      case ReturnEvent(now) =>
        if p.thread.current != ROOT {
          TracksReturn(p, now, q, calls, spent, shown);
        }
      case SnapshotEvent(_) =>
        StreamOfSnapshot(p, e.now);
    }
  }

  /** While a call is open, the start time reported for its context is its own. */
  lemma {:induction false} ShownOnStack(trace: seq<Event>, j: nat)
    requires j < |Stack(trace)|
    ensures Shown(trace, Names(Stack(trace)[..j + 1])) == Stack(trace)[j].start
  {
    var init, e := trace[..|trace| - 1], trace[|trace| - 1];
    var before, after := Stack(init), Stack(trace);
    var q := Names(after[..j + 1]);
    match e
    case CallEvent(name, now) =>
      if j < |before| {
        ShownOnStack(init, j);
        assert after[..j + 1] == before[..j + 1];
        assert |Names(before) + [name]| != |q|;
      } else {
        assert after[..j + 1] == after;
        assert Names(before) + [name] == q;
      }
    case ReturnEvent(now) =>
      ShownOnStack(init, j);
      assert after[..j + 1] == before[..j + 1];
      assert |Names(before)| != |q|;
    case SnapshotEvent(_) =>
      ShownOnStack(init, j);
  }
}
