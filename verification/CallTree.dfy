/** The profiled process's side: a calling-context tree per thread, and the
    records that report what happened in the current interval. */
module CallTree {
  import opened Wire

  /** A node of the call tree. `index` is only meaningful while `generation`
      equals the thread's generation. */
  datatype MethodNode = MethodNode(
    index: nat,
    generation: nat,
    name: NameId,
    children: map<NameId, NodeId>,
    parent: NodeId,
    start: seq<int>)

  /** One thread. `cols` is the number of profile value columns. */
  datatype ThreadState = ThreadState(
    cols: nat,
    nodes: seq<MethodNode>,
    front: seq<Record>,
    current: NodeId,
    generation: nat)

  /** Node `n` is its parent's child of that name. */
  ghost predicate LinkedUp(nodes: seq<MethodNode>, n: NodeId)
    requires n < |nodes|
  {
    var node := nodes[n];
    && 1 <= node.parent < n
    && node.name in nodes[node.parent].children
    && nodes[node.parent].children[node.name] == n
  }

  /** Every child entry of node `n` leads to a node with that name and parent. */
  ghost predicate LinkedDown(nodes: seq<MethodNode>, n: NodeId)
    requires n < |nodes|
  {
    forall name :: name in nodes[n].children ==>
      var c := nodes[n].children[name];
      2 <= c < |nodes| && nodes[c].parent == n && nodes[c].name == name
  }

  /** Node 0 is never used, node 1 is the root, and `children` and `parent`
      describe the same edges. */
  ghost predicate ValidTree(nodes: seq<MethodNode>) {
    && |nodes| >= 2
    && nodes[ROOT].parent == 0
    && (forall n :: 2 <= n < |nodes| ==> LinkedUp(nodes, n))
    && (forall n :: 1 <= n < |nodes| ==> LinkedDown(nodes, n))
  }

  /** A node of the current generation knows where its record is. */
  ghost predicate Indexed(t: ThreadState, n: NodeId)
    requires n < |t.nodes|
  {
    var node := t.nodes[n];
    && |node.start| == t.cols
    && node.generation <= t.generation
    && (node.generation == t.generation ==> node.index < |t.front| && t.front[node.index].id == n)
  }

  /** A record of the front buffer is known to its node, and describes it. */
  ghost predicate Owned(t: ThreadState, k: nat)
    requires k < |t.front|
  {
    var r := t.front[k];
    && 2 <= r.id < |t.nodes|
    && t.nodes[r.id].generation == t.generation
    && t.nodes[r.id].index == k
    && r.parent == t.nodes[r.id].parent
    && r.name == t.nodes[r.id].name
    && |r.values| == t.cols
  }

  ghost predicate Coherent(t: ThreadState) {
    && (forall n :: 1 <= n < |t.nodes| ==> Indexed(t, n))
    && (forall k :: 0 <= k < |t.front| ==> Owned(t, k))
  }

  ghost predicate Valid(t: ThreadState) {
    && t.cols >= 2
    && ValidTree(t.nodes)
    && 1 <= t.current < |t.nodes|
    && t.generation >= 1
    && t.nodes[ROOT].generation == 0
    && Coherent(t)
  }

  function NewNode(cols: nat, parent: NodeId, name: NameId): MethodNode {
    MethodNode(0, 0, name, map[], parent, Zeros(cols))
  }

  function NewThread(cols: nat): ThreadState {
    ThreadState(cols, [NewNode(cols, 0, 0), NewNode(cols, 0, 0)], [], ROOT, 1)
  }

  /** Moves to the child called `name`, which is created when missing. */
  function Enter(t: ThreadState, name: NameId): ThreadState
    requires t.current < |t.nodes|
  {
    var kids := t.nodes[t.current].children;
    if name in kids then t.(current := kids[name])
    else
      var id := |t.nodes|;
      t.(nodes := t.nodes[t.current := t.nodes[t.current].(children := kids[name := id])]
                  + [NewNode(t.cols, t.current, name)],
         current := id)
  }

  function FreshRecord(t: ThreadState, n: NodeId): Record
    requires n < |t.nodes|
  {
    Record(t.nodes[n].name, n, t.nodes[n].parent, 0, Zeros(t.cols))
  }

  /** Makes sure the current node has a record in this generation. */
  function Touch(t: ThreadState): ThreadState
    requires t.current < |t.nodes|
  {
    var n := t.current;
    if t.nodes[n].generation == t.generation then t
    else t.(front := t.front + [FreshRecord(t, n)],
            nodes := t.nodes[n := t.nodes[n].(index := |t.front|, generation := t.generation)])
  }

  ghost predicate HasRecord(t: ThreadState) {
    && t.current < |t.nodes|
    && t.nodes[t.current].index < |t.front|
    && |t.front[t.nodes[t.current].index].values| >= 2
    && |t.nodes[t.current].start| >= 2
  }

  function CurrentRecord(t: ThreadState): Record
    requires HasRecord(t)
  {
    t.front[t.nodes[t.current].index]
  }

  function WithRecord(t: ThreadState, r: Record): ThreadState
    requires HasRecord(t)
  {
    t.(front := t.front[t.nodes[t.current].index := r])
  }

  function BeginCall(t: ThreadState, now: int): ThreadState
    requires HasRecord(t)
  {
    var r := CurrentRecord(t);
    var r' := r.(callCount := r.callCount + 1, values := r.values[1 := now]);
    WithRecord(t, r').(nodes := t.nodes[t.current := t.nodes[t.current].(start := r'.values)])
  }

  function EndCall(t: ThreadState, now: int): ThreadState
    requires HasRecord(t)
  {
    var r := CurrentRecord(t);
    var spent := now - t.nodes[t.current].start[1];
    WithRecord(t, r.(values := r.values[0 := r.values[0] + spent])).(current := r.parent)
  }

  lemma EnterValid(t: ThreadState, name: NameId)
    requires Valid(t)
    ensures Valid(Enter(t, name))
    ensures Enter(t, name).current >= 2
    ensures Enter(t, name).nodes[Enter(t, name).current].parent == t.current
    ensures Enter(t, name).nodes[Enter(t, name).current].name == name
  {
    var u := Enter(t, name);
    assert LinkedDown(t.nodes, t.current);
    forall n | 2 <= n < |u.nodes|
      ensures LinkedUp(u.nodes, n)
    {
      assert n < |t.nodes| ==> LinkedUp(t.nodes, n);
    }
    forall n | 1 <= n < |u.nodes|
      ensures LinkedDown(u.nodes, n) && Indexed(u, n)
    {
      assert n < |t.nodes| ==> LinkedDown(t.nodes, n) && Indexed(t, n);
    }
    forall k | 0 <= k < |u.front|
      ensures Owned(u, k)
    {
      assert Owned(t, k);
    }
  }

  /** Changing only indexes, generations and start values keeps the tree valid. */
  lemma SameTree(a: seq<MethodNode>, b: seq<MethodNode>)
    requires ValidTree(a) && |b| == |a|
    requires forall n :: 0 <= n < |a| ==>
               b[n].name == a[n].name && b[n].parent == a[n].parent && b[n].children == a[n].children
    ensures ValidTree(b)
  {
    forall n | 2 <= n < |b|
      ensures LinkedUp(b, n)
    {
      assert LinkedUp(a, n);
    }
    forall n | 1 <= n < |b|
      ensures LinkedDown(b, n)
    {
      assert LinkedDown(a, n);
    }
  }

  lemma TouchValid(t: ThreadState)
    requires Valid(t) && t.current >= 2
    ensures Valid(Touch(t)) && HasRecord(Touch(t))
    ensures Touch(t).nodes[t.current].generation == t.generation
  {
    var u := Touch(t);
    SameTree(t.nodes, u.nodes);
    assert Indexed(t, t.current);
    assert LinkedUp(t.nodes, t.current);
    forall n | 1 <= n < |u.nodes|
      ensures Indexed(u, n)
    {
      assert Indexed(t, n);
    }
    forall k | 0 <= k < |u.front|
      ensures Owned(u, k)
    {
      assert k < |t.front| ==> Owned(t, k);
    }
    assert Indexed(u, u.current) && Owned(u, u.nodes[u.current].index);
  }

  /** Rewriting the values of the current node's record, and its start value. */
  lemma RewriteValid(t: ThreadState, u: ThreadState)
    requires Valid(t) && HasRecord(t)
    requires u.cols == t.cols && u.generation == t.generation
    requires |u.front| == |t.front| && |u.nodes| == |t.nodes|
    requires forall k :: 0 <= k < |t.front| ==>
               && u.front[k].id == t.front[k].id && u.front[k].parent == t.front[k].parent
               && u.front[k].name == t.front[k].name && |u.front[k].values| == |t.front[k].values|
    requires forall n :: 0 <= n < |t.nodes| ==>
               && u.nodes[n] == t.nodes[n].(start := u.nodes[n].start)
               && |u.nodes[n].start| == |t.nodes[n].start|
    requires 1 <= u.current < |u.nodes|
    ensures Valid(u)
  {
    SameTree(t.nodes, u.nodes);
    forall n | 1 <= n < |u.nodes|
      ensures Indexed(u, n)
    {
      assert Indexed(t, n);
    }
    forall k | 0 <= k < |u.front|
      ensures Owned(u, k)
    {
      assert Owned(t, k);
    }
  }

  lemma SnapshotValid(t: ThreadState, u: ThreadState)
    requires Valid(t) && u == t.(front := [], generation := t.generation + 1)
    ensures Valid(u)
  {
    forall n | 1 <= n < |u.nodes|
      ensures Indexed(u, n)
    {
      assert Indexed(t, n);
    }
  }

  ghost function Call(t: ThreadState, name: NameId, now: int): (r: ThreadState)
    requires Valid(t)
    ensures Valid(r)
  {
    var e := Enter(t, name);
    EnterValid(t, name);
    TouchValid(e);
    var u := Touch(e);
    assert Indexed(u, u.current) && Owned(u, u.nodes[u.current].index);
    RewriteValid(u, BeginCall(u, now));
    BeginCall(u, now)
  }

  /** A return at the root is ignored. */
  ghost function Return(t: ThreadState, now: int): (r: ThreadState)
    requires Valid(t)
    ensures Valid(r)
  {
    if t.current == ROOT then t
    else
      TouchValid(t);
      var u := Touch(t);
      assert Indexed(u, u.current) && Owned(u, u.nodes[u.current].index) && LinkedUp(u.nodes, u.current);
      RewriteValid(u, EndCall(u, now));
      EndCall(u, now)
  }

  /** Hands out the front buffer and starts a new generation. */
  ghost function Snapshot(t: ThreadState): (r: ThreadState)
    requires Valid(t)
    ensures Valid(r)
  {
    var u := t.(front := [], generation := t.generation + 1);
    SnapshotValid(t, u);
    u
  }

  /** The coherence promise in full. */
  lemma GenerationIffRecord(t: ThreadState, n: NodeId)
    requires Valid(t) && 1 <= n < |t.nodes|
    ensures t.nodes[n].generation == t.generation
       <==> exists k :: 0 <= k < |t.front| && t.front[k].id == n
    ensures forall k :: 0 <= k < |t.front| && t.front[k].id == n ==>
              && k == t.nodes[n].index
              && t.front[k].parent == t.nodes[n].parent
              && t.front[k].name == t.nodes[n].name
    ensures OneRecordPerNode(t.front)
  {
    assert Indexed(t, n);
    forall k | 0 <= k < |t.front|
      ensures Owned(t, k)
    {
    }
    if t.nodes[n].generation == t.generation {
      assert t.front[t.nodes[n].index].id == n;
    }
    forall i, j | 0 <= i < j < |t.front|
      ensures t.front[i].id != t.front[j].id
    {
      assert Owned(t, i) && Owned(t, j);
    }
    forall k | 0 <= k < |t.front| && t.front[k].id == n
      ensures k == t.nodes[n].index
      ensures t.nodes[n].generation == t.generation
      ensures t.front[k].parent == t.nodes[n].parent
      ensures t.front[k].name == t.nodes[n].name
    {
      assert Owned(t, k);
    }
  }

  lemma NewThreadValid(cols: nat)
    requires cols >= 2
    ensures Valid(NewThread(cols))
  {
    var t := NewThread(cols);
    assert LinkedDown(t.nodes, 1) && Indexed(t, 1);
  }
}
