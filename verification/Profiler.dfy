/** The profiled process's hooks and its data server, updated in place. */
module Profiler {
  import opened Wire
  import opened CallTree

  /** The array of records of one generation. */
  class RecordBuffer {
    var recs: seq<Record>

    constructor ()
      ensures recs == []
    {
      recs := [];
    }
  }

  /** Which columns belong to a counter. In the deployed layout the one counter
      has column 0 for its total and column 1 for its start value. */
  predicate Deployed(layout: seq<bool>) {
    |layout| >= 2 && layout[0] && layout[1] && forall i :: 2 <= i < |layout| ==> !layout[i]
  }

  /** Writes the counter's reading into its start-value column. */
  method StartNode(layout: seq<bool>, value: seq<int>, now: int) returns (r: seq<int>)
    requires Deployed(layout) && |value| == |layout|
    ensures r == value[1 := now]
  {
    r := value;
    var i := 0;
    while i < |layout|
      invariant |r| == |value|
      invariant i == 0 ==> r == value
      invariant i != 0 ==> i >= 2 && r == value[1 := now]
    {
      if layout[i] {
        i := i + 1;
        r := r[i := now];
      }
      i := i + 1;
      i := i + 1;
    }
  }

  /** Adds the time since the start value to the counter's total. */
  method EndNode(layout: seq<bool>, start: seq<int>, value: seq<int>, now: int) returns (r: seq<int>)
    requires Deployed(layout) && |value| == |start| == |layout|
    ensures r == value[0 := value[0] + (now - start[1])]
  {
    r := value;
    var i := 0;
    while i < |layout|
      invariant |r| == |value|
      invariant i == 0 ==> r == value
      invariant i != 0 ==> i >= 2 && r == value[0 := value[0] + (now - start[1])]
    {
      if layout[i] {
        r := r[0 := r[0] + (now - start[i + 1])];
        i := i + 1;
      }
      i := i + 1;
      i := i + 1;
    }
  }

  class ThreadInfo {
    const id: nat
    const layout: seq<bool>
    var nodes: seq<MethodNode>
    var front: RecordBuffer
    var current: NodeId
    var generation: nat
    var running: NodeId
    var nowValues: seq<int>

    ghost function State(): ThreadState
      reads this, front
    {
      ThreadState(|layout|, nodes, front.recs, current, generation)
    }

    ghost predicate Valid()
      reads this, front
    {
      Deployed(layout) && CallTree.Valid(State()) && |nowValues| == |layout|
    }

    constructor (id: nat, layout: seq<bool>)
      requires Deployed(layout)
      ensures Valid() && fresh(front)
      ensures this.id == id && this.layout == layout
      ensures State() == NewThread(|layout|)
    {
      this.id, this.layout := id, layout;
      nodes := [NewNode(|layout|, 0, 0), NewNode(|layout|, 0, 0)];
      front := new RecordBuffer();
      current, generation, running, nowValues := ROOT, 1, 0, Zeros(|layout|);
      new;
      NewThreadValid(|layout|);
    }

    method AddCallNode(parent: NodeId, name: NameId) returns (n: NodeId)
      requires 0 < parent < |nodes|
      modifies this`nodes
      ensures n == |old(nodes)|
      ensures nodes == old(nodes)[parent := old(nodes)[parent].(children := old(nodes)[parent].children[name := n])]
                       + [NewNode(|layout|, parent, name)]
    {
      n := |nodes|;
      nodes := nodes + [NewNode(|layout|, parent, name)];
      nodes := nodes[parent := nodes[parent].(children := nodes[parent].children[name := n])];
    }

    method GetChildNodeId(name: NameId) returns (n: NodeId)
      requires 0 < current < |nodes|
      modifies this`nodes
      ensures State().(current := n) == Enter(old(State()), name)
    {
      if name !in nodes[current].children {
        n := AddCallNode(current, name);
      } else {
        n := nodes[current].children[name];
      }
    }

    method AddActualRecord(n: NodeId)
      requires n < |nodes|
      modifies this`nodes, front
      ensures front.recs == old(front.recs) + [FreshRecord(old(State()), n)]
      ensures nodes == old(nodes)[n := old(nodes)[n].(index := |old(front.recs)|, generation := generation)]
    {
      var node := nodes[n];
      front.recs := front.recs + [Record(node.name, n, node.parent, 0, Zeros(|layout|))];
      nodes := nodes[n := node.(index := |front.recs| - 1, generation := generation)];
    }

    /** The index of the current node's record, which is added if the node has
        none in this generation. */
    method GetCurrentNodeInfo() returns (k: nat)
      requires current < |nodes|
      modifies this`nodes, front
      ensures State() == Touch(old(State()))
      ensures k == nodes[current].index
    {
      if nodes[current].generation != generation {
        AddActualRecord(current);
      }
      k := nodes[current].index;
    }

    method CallHandler(name: NameId, now: int)
      requires Valid()
      modifies this`nodes, this`current, front
      ensures Valid() && State() == Call(old(State()), name, now)
    {
      ghost var t := State();
      EnterValid(t, name);
      current := GetChildNodeId(name);
      ghost var e := State();
      TouchValid(e);
      var k := GetCurrentNodeInfo();
      ghost var u := State();
      assert Indexed(u, current) && Owned(u, k);
      var r := front.recs[k];
      var values := StartNode(layout, r.values, now);
      front.recs := front.recs[k := r.(callCount := r.callCount + 1, values := values)];
      nodes := nodes[current := nodes[current].(start := values)];
      assert State() == BeginCall(u, now) == Call(t, name, now);
    }

    method ReturnHandler(now: int)
      requires Valid()
      modifies this`nodes, this`current, front
      ensures Valid() && State() == Return(old(State()), now)
    {
      if current == ROOT {
        return;
      }
      ghost var t := State();
      TouchValid(t);
      var k := GetCurrentNodeInfo();
      ghost var u := State();
      assert Indexed(u, current) && Owned(u, k);
      var r := front.recs[k];
      var values := EndNode(layout, nodes[current].start, r.values, now);
      front.recs := front.recs[k := r.(values := values)];
      current := r.parent;
      assert State() == EndCall(u, now) == Return(t, now);
    }
  }

  /** What the server sends: a thread's records of the last interval, and what
      the thread was doing when they were taken. */
  datatype Message = Performance(thread: nat, recs: seq<Record>) | NowMessage(thread: nat, ni: NowInfo)

  /** The thread whose turn it is, `n` for none left, and what is due for it. */
  datatype Iterator = Iterator(thread: nat, phase: nat)

  function NextBuffer(iter: Iterator, n: nat): Iterator {
    if iter.thread >= n then iter
    else if iter.phase == 2 then Iterator(iter.thread + 1, 1)
    else iter.(phase := iter.phase + 1)
  }

  class Server {
    const layout: seq<bool>
    var threads: seq<ThreadInfo>
    var back: RecordBuffer

    /** The n front buffers and the back buffer. */
    ghost function Buffers(): set<RecordBuffer>
      reads this, threads
    {
      (set t | t in threads :: t.front) + {back}
    }

    /** The threads' own state is valid, and no two buffers are the same object. */
    ghost predicate Valid()
      reads this, threads, (set t | t in threads :: t.front)
    {
      && Deployed(layout)
      && (forall j, k :: 0 <= j < k < |threads| ==> threads[j] != threads[k] && threads[j].front != threads[k].front)
      && (forall k :: 0 <= k < |threads| ==> threads[k].front != back)
      && (forall k :: 0 <= k < |threads| ==>
           threads[k].id == k && threads[k].layout == layout && threads[k].Valid())
    }

    constructor (layout: seq<bool>)
      requires Deployed(layout)
      ensures Valid() && threads == [] && this.layout == layout && fresh(back)
    {
      this.layout := layout;
      threads := [];
      back := new RecordBuffer();
    }

    /** A thread runs its first hook. */
    method AddThread() returns (t: ThreadInfo)
      requires Valid()
      modifies this`threads
      ensures Valid() && fresh(t) && fresh(t.front)
      ensures threads == old(threads) + [t] && t.State() == NewThread(|layout|)
    {
      t := new ThreadInfo(|threads|, layout);
      threads := threads + [t];
    }

    /** Swaps a thread's buffer with the back buffer and starts a generation. */
    method GetSerializedBuffer(t: ThreadInfo) returns (recs: seq<Record>)
      requires Valid() && t in threads
      modifies this`back, back, t`front, t`generation, t`running
      ensures Valid() && Buffers() == old(Buffers())
      ensures recs == old(t.front.recs)
      ensures t.State() == Snapshot(old(t.State()))
      ensures t.running == t.current
      ensures t.front == old(back) && back == old(t.front)
    {
      ghost var before := t.State();
      t.front, back := back, t.front;
      t.generation := t.generation + 1;
      t.front.recs := [];
      recs := back.recs;
      t.running := t.current;
      assert t.State() == Snapshot(before);
    }

    method GetNowInfo(t: ThreadInfo, now: int) returns (ni: NowInfo)
      requires Valid() && t in threads
      modifies t`nowValues
      ensures Valid() && t.State() == old(t.State())
      ensures t.nowValues == old(t.nowValues)[1 := now]
      ensures ni == NowInfo(t.running, t.nowValues)
    {
      t.nowValues := StartNode(layout, t.nowValues, now);
      ni := NowInfo(t.running, t.nowValues);
    }

    ghost function States(): (s: seq<ThreadState>)
      reads this, threads, (set t | t in threads :: t.front)
      ensures |s| == |threads| && forall k :: 0 <= k < |s| ==> s[k] == threads[k].State()
    {
      seq(|threads|, k requires 0 <= k < |threads| reads this, threads, (set t | t in threads :: t.front) =>
        threads[k].State())
    }

    ghost function NowValues(): (s: seq<seq<int>>)
      reads this, threads
      ensures |s| == |threads| && forall k :: 0 <= k < |s| ==> s[k] == threads[k].nowValues
    {
      seq(|threads|, k requires 0 <= k < |threads| reads this, threads => threads[k].nowValues)
    }

    ghost function Runnings(): (s: seq<NodeId>)
      reads this, threads
      ensures |s| == |threads| && forall k :: 0 <= k < |s| ==> s[k] == threads[k].running
    {
      seq(|threads|, k requires 0 <= k < |threads| reads this, threads => threads[k].running)
    }

    /** The message due for thread `k`. */
    method GetBuffer(k: nat, phase: nat, now: int) returns (msg: Message)
      requires Valid() && k < |threads| && 1 <= phase <= 2
      modifies this`back, Buffers(), threads
      ensures Valid() && threads == old(threads) && Buffers() == old(Buffers())
      ensures CallTree.Valid(old(States())[k]) && |old(NowValues())[k]| == |layout|
      ensures phase == 1 ==>
        && msg == Performance(k, old(States())[k].front)
        && States() == old(States())[k := Snapshot(old(States())[k])]
        && Runnings() == old(Runnings())[k := old(States())[k].current]
        && NowValues() == old(NowValues())
      ensures phase == 2 ==>
        && msg == NowMessage(k, NowInfo(old(Runnings())[k], old(NowValues())[k][1 := now]))
        && States() == old(States()) && Runnings() == old(Runnings())
        && NowValues() == old(NowValues())[k := old(NowValues())[k][1 := now]]
    {
      ghost var states, runnings, nows := States(), Runnings(), NowValues();
      if phase == 1 {
        var recs := GetSerializedBuffer(threads[k]);
        msg := Performance(threads[k].id, recs);
        assert States() == states[k := Snapshot(states[k])];
        assert Runnings() == runnings[k := states[k].current];
        assert NowValues() == nows;
      } else {
        var ni := GetNowInfo(threads[k], now);
        msg := NowMessage(threads[k].id, ni);
        assert States() == states && Runnings() == runnings;
        assert NowValues() == nows[k := nows[k][1 := now]];
      }
    }

    /** How far a request has been answered that began with these values. */
    ghost predicate Progressed(
      states: seq<ThreadState>, nows: seq<seq<int>>, readings: seq<int>, msgs: seq<Message>, cur: nat, taken: bool)
      reads this, threads, (set t | t in threads :: t.front)
    {
      Progress(states, nows, readings, States(), Runnings(), NowValues(), msgs, cur, taken)
    }

    method SendNext(
      cur: nat, phase: nat, readings: seq<int>, sent: seq<Message>,
      ghost states: seq<ThreadState>, ghost nows: seq<seq<int>>)
      returns (msgs: seq<Message>)
      requires Valid() && cur < |threads| == |readings| && 1 <= phase <= 2
      requires Progressed(states, nows, readings, sent, cur, phase == 2)
      modifies this`back, Buffers(), threads
      ensures Valid() && threads == old(threads) && Buffers() == old(Buffers())
      ensures Progressed(states, nows, readings, msgs, if phase == 2 then cur + 1 else cur, phase == 1)
    {
      ghost var s, r, n := States(), Runnings(), NowValues();
      var msg := GetBuffer(cur, phase, readings[cur]);
      msgs := sent + [msg];
      if phase == 1 {
        TakenOne(states, nows, readings, s, r, n, sent, cur, msg);
      } else {
        SentOne(states, nows, readings, s, r, n, sent, cur, msg);
      }
    }

    /** Answers one request for profile data; `readings` are the clock readings. */
    method SendProfileData(readings: seq<int>) returns (msgs: seq<Message>)
      requires Valid() && |readings| == |threads|
      modifies this`back, Buffers(), threads
      ensures Valid() && threads == old(threads) && Buffers() == old(Buffers())
      ensures |msgs| == 2 * |threads|
      ensures forall k :: 0 <= k < |threads| ==> Pair(msgs, k, old(States())[k], old(NowValues())[k], readings[k])
      ensures forall k :: 0 <= k < |threads| ==> Renewed(old(States())[k], States()[k])
    {
      msgs := [];
      ghost var states, nows := States(), NowValues();
      var iter := NextBuffer(Iterator(0, 0), |threads|);
      while iter.thread < |threads|
        invariant Valid() && threads == old(threads) && Buffers() == old(Buffers())
        invariant iter.thread <= |threads| && (iter.thread < |threads| ==> 1 <= iter.phase <= 2)
        invariant Progressed(states, nows, readings, msgs, iter.thread, iter.thread < |threads| && iter.phase == 2)
        decreases 2 * (|threads| - iter.thread) - iter.phase
      {
        msgs := SendNext(iter.thread, iter.phase, readings, msgs, states, nows);
        iter := NextBuffer(iter, |threads|);
      }
    }
  }

  ghost predicate Renewed(was: ThreadState, t: ThreadState) {
    CallTree.Valid(was) && t == Snapshot(was)
  }

  /** Threads before `cur` have been sent for; of thread `cur` the records, if
      `taken`; the others are as they were. */
  ghost predicate Progress(
    states: seq<ThreadState>, nows: seq<seq<int>>, readings: seq<int>,
    s: seq<ThreadState>, r: seq<NodeId>, n: seq<seq<int>>, msgs: seq<Message>, cur: nat, taken: bool)
  {
    && |states| == |nows| == |readings| == |s| == |r| == |n|
    && |msgs| == 2 * cur + (if taken then 1 else 0) && cur + (if taken then 1 else 0) <= |s|
    && (forall k :: 0 <= k < cur ==> Pair(msgs, k, states[k], nows[k], readings[k]) && Renewed(states[k], s[k]))
    && (taken ==> && msgs[2 * cur] == Performance(cur, states[cur].front) && Renewed(states[cur], s[cur])
                  && r[cur] == states[cur].current)
    && (forall k :: cur <= k < |s| ==> n[k] == nows[k])
    && (forall k :: cur + (if taken then 1 else 0) <= k < |s| ==> s[k] == states[k])
  }

  lemma TakenOne(
    states: seq<ThreadState>, nows: seq<seq<int>>, readings: seq<int>,
    s: seq<ThreadState>, r: seq<NodeId>, n: seq<seq<int>>, msgs: seq<Message>, cur: nat, msg: Message)
    requires Progress(states, nows, readings, s, r, n, msgs, cur, false)
    requires cur < |s| && CallTree.Valid(s[cur]) && msg == Performance(cur, s[cur].front)
    ensures Progress(states, nows, readings, s[cur := Snapshot(s[cur])], r[cur := s[cur].current], n,
                     msgs + [msg], cur, true)
  {
    forall k | 0 <= k < cur
      ensures Pair(msgs + [msg], k, states[k], nows[k], readings[k])
    {
      assert Pair(msgs, k, states[k], nows[k], readings[k]);
    }
  }

  lemma SentOne(
    states: seq<ThreadState>, nows: seq<seq<int>>, readings: seq<int>,
    s: seq<ThreadState>, r: seq<NodeId>, n: seq<seq<int>>, msgs: seq<Message>, cur: nat, msg: Message)
    requires Progress(states, nows, readings, s, r, n, msgs, cur, true)
    requires cur < |s| && |n[cur]| > 1 && msg == NowMessage(cur, NowInfo(r[cur], n[cur][1 := readings[cur]]))
    ensures Progress(states, nows, readings, s, r, n[cur := n[cur][1 := readings[cur]]], msgs + [msg], cur + 1, false)
  {
    forall k | 0 <= k < cur
      ensures Pair(msgs + [msg], k, states[k], nows[k], readings[k])
    {
      assert Pair(msgs, k, states[k], nows[k], readings[k]);
    }
  }

  /** Messages 2k and 2k + 1 are thread `k`'s records and the now-info with it. */
  ghost predicate Pair(msgs: seq<Message>, k: nat, was: ThreadState, now: seq<int>, reading: int) {
    && 2 * k + 1 < |msgs| && 1 < |now|
    && msgs[2 * k] == Performance(k, was.front)
    && msgs[2 * k + 1] == NowMessage(k, NowInfo(was.current, now[1 := reading]))
  }
}
