/** What storing one performance buffer does to a monitored thread's tree,
    stated as sums over subtrees instead of as an algorithm. */
module StoreModel {
  import opened Wire
  import opened Sums
  import opened Forest

  /** Column flags: A columns are already inclusive on the wire, S columns hold
      the latest value instead of a total. */
  datatype Metadata = Metadata(accumulated: bool, isStatic: bool)

  datatype Config = Config(meta: seq<Metadata>, single: bool, nameOf: NameId -> string, hash: string -> nat)

  datatype Node = Node(
    parent: NodeId,
    name: NameId,
    gnid: nat,
    children: set<NodeId>,
    dirty: bool,
    running: bool,
    all: seq<int>,
    cld: seq<int>,
    callCount: nat,
    temp: seq<int>,
    tempCount: nat)

  type Tree = map<NodeId, Node>

  datatype SliceNode = SliceNode(all: seq<int>, cld: seq<int>, callCount: nat)
  datatype Slice = Slice(tree: map<NodeId, SliceNode>, now: seq<int>, running: NodeId)

  const EMPTY_SLICE := Slice(map[], [], 0)

  ghost function Par(tree: Tree): Parents {
    map x | x in tree :: tree[x].parent
  }

  /** In single-tree mode only the root keeps cumulative values. */
  function Width(cfg: Config, x: NodeId): nat {
    if cfg.single && x != ROOT then 0 else |cfg.meta|
  }

  ghost predicate ValidNode(cfg: Config, tree: Tree, x: NodeId)
    requires x in tree
  {
    var node := tree[x];
    && |node.all| == Width(cfg, x) && |node.cld| == Width(cfg, x)
    && |node.temp| == |cfg.meta|
    && node.children == Kids(Par(tree), x)
  }

  ghost predicate ValidTree(cfg: Config, tree: Tree) {
    && WellFormed(Par(tree))
    && forall x {:trigger ValidNode(cfg, tree, x)} :: x in tree ==> ValidNode(cfg, tree, x)
  }

  ghost function Dirty(tree: Tree): set<NodeId> {
    set x | x in tree && tree[x].dirty
  }

  ghost predicate Clean(tree: Tree) {
    forall x :: x in tree ==> !tree[x].dirty
  }

  // ------------------------------------------------------- attribute nodes

  /** A node whose name begins with '#' is taken for an attribute node, whether
      or not attribute nodes are switched on. */
  predicate IsAttr(cfg: Config, x: NodeId, name: NameId) {
    x != ROOT && AttrName(cfg, name)
  }

  predicate AttrName(cfg: Config, name: NameId) {
    cfg.nameOf(name) != [] && cfg.nameOf(name)[0] == '#'
  }

  ghost function Attrs(cfg: Config, tree: Tree): set<NodeId> {
    set x | x in tree && IsAttr(cfg, x, tree[x].name)
  }

  /** The nodes with no attribute node above them: clearing gets to no others. */
  ghost function Seen(cfg: Config, tree: Tree): set<NodeId> {
    Visibles(Par(tree), Attrs(cfg, tree))
  }

  /** What clearing from the root will clear. */
  ghost function Collected(cfg: Config, g: Tree): set<NodeId> {
    Dirty(g) * Seen(cfg, g)
  }

  /** Only nodes that clearing does not get to are still dirty. */
  ghost predicate Quiet(cfg: Config, tree: Tree) {
    Collected(cfg, tree) == {}
  }

  // ------------------------------------------------------------ new nodes

  /** The string hashed into a node's global id. */
  function Digits(n: nat): string {
    (if n < 10 then "" else Digits(n / 10)) + [(n % 10) as char + '0']
  }

  function PathKey(parentGnid: nat, name: string): string {
    Digits(parentGnid) + "/" + name
  }

  function NewNode(cfg: Config, x: NodeId, parent: NodeId, name: NameId, gnid: nat): Node {
    Node(parent, name, gnid, {}, false, false, Zeros(Width(cfg, x)), Zeros(Width(cfg, x)), 0,
         Zeros(|cfg.meta|), 0)
  }

  /** A record can be stored when its node is known, or its parent is. */
  ghost predicate Storable(known: set<NodeId>, recs: seq<Record>)
  {
    forall k {:trigger StorableAt(known, recs, k)} :: 0 <= k < |recs| ==> StorableAt(known, recs, k)
  }

  ghost predicate StorableAt(known: set<NodeId>, recs: seq<Record>, k: nat)
    requires k < |recs|
  {
    var seen := known + Ids(recs[..k]);
    recs[k].id in seen || (recs[k].parent in seen && recs[k].parent < recs[k].id)
  }

  ghost function AddNode(cfg: Config, tree: Tree, r: Record): Tree
    requires r.id in tree || r.parent in tree
  {
    if r.id in tree then tree
    else
      var up := tree[r.parent];
      tree[r.id := NewNode(cfg, r.id, r.parent, r.name, cfg.hash(PathKey(up.gnid, cfg.nameOf(r.name))))]
          [r.parent := up.(children := up.children + {r.id})]
  }

  ghost function AddAll(cfg: Config, tree: Tree, recs: seq<Record>): (big: Tree)
    requires Storable(tree.Keys, recs)
    ensures big.Keys == tree.Keys + Ids(recs)
  {
    if recs == [] then tree
    else
      var init, r := recs[..|recs| - 1], recs[|recs| - 1];
      StorablePrefix(tree.Keys, recs);
      StorableLast(tree.Keys, recs);
      AddNode(cfg, AddAll(cfg, tree, init), r)
  }

  lemma StorablePrefix(known: set<NodeId>, recs: seq<Record>)
    requires Storable(known, recs) && recs != []
    ensures Storable(known, recs[..|recs| - 1])
  {
    var init := recs[..|recs| - 1];
    forall k | 0 <= k < |init|
      ensures StorableAt(known, init, k)
    {
      assert StorableAt(known, recs, k);
      assert init[..k] == recs[..k];
    }
  }

  lemma StorableLast(known: set<NodeId>, recs: seq<Record>)
    requires Storable(known, recs) && recs != []
    ensures var seen, r := known + Ids(recs[..|recs| - 1]), recs[|recs| - 1];
      r.id in seen || (r.parent in seen && r.parent < r.id)
  {
    assert StorableAt(known, recs, |recs| - 1);
  }

  // ------------------------------------------------------ marking and temps

  /** Static columns start from the previous value, all others from zero. */
  ghost function DefaultTemp(cfg: Config, node: Node): (t: seq<int>)
    ensures |t| == |cfg.meta|
  {
    seq(|cfg.meta|, i requires 0 <= i < |cfg.meta| =>
      if cfg.meta[i].isStatic && !cfg.single && i < |node.all| then node.all[i] else 0)
  }

  /** The node after marking: dirty, with default temps unless it was dirty. */
  ghost function Marked(cfg: Config, node: Node): Node {
    if node.dirty then node else node.(dirty := true, temp := DefaultTemp(cfg, node), tempCount := 0)
  }

  /** Marking stops at the first node that is dirty already. */
  ghost function MarkUp(cfg: Config, tree: Tree, id: NodeId): Tree {
    map x | x in tree ::
      if Reach(Par(tree), Dirty(tree), x, id) then Marked(cfg, tree[x]) else tree[x]
  }

  /** Where a store starts marking: at the nodes with a record, and at the
      running node if it is already known. */
  ghost function Seeds(tree: Tree, run: NodeId, recs: seq<Record>): set<NodeId> {
    Ids(recs) + if run in tree then {run} else {}
  }

  /** The nodes a store marks. */
  ghost function MarkSet(tree: Tree, big: Tree, run: NodeId, recs: seq<Record>): set<NodeId> {
    Walked(Par(big), Dirty(tree), Seeds(tree, run, recs))
  }

  ghost function RunningSet(tree: Tree, big: Tree, run: NodeId): set<NodeId> {
    if run in tree then UpClosure(Par(big), {run}) else {}
  }

  /** A node that is still dirty from before keeps what it has, unless a record
      overwrites it. */
  ghost function Stage(cfg: Config, node: Node, marked: bool, running: bool, r: Option<Record>): Node {
    var n := node.(running := running);
    if r.Some? then n.(dirty := true, temp := r.value.values, tempCount := r.value.callCount)
    else if marked then n.(dirty := true, temp := DefaultTemp(cfg, node), tempCount := 0)
    else n
  }

  ghost function StageTree(
    cfg: Config, big: Tree, marked: set<NodeId>, running: set<NodeId>, recs: seq<Record>): Tree
  {
    map x | x in big :: Stage(cfg, big[x], x in marked, x in running, Latest(recs, x))
  }

  /** The tree just before the dirty nodes are cleared. */
  ghost function Staged(cfg: Config, tree: Tree, run: NodeId, recs: seq<Record>): Tree
    requires Storable(tree.Keys, recs)
  {
    var big := AddAll(cfg, tree, recs);
    StageTree(cfg, big, MarkSet(tree, big, run, recs), RunningSet(tree, big, run), recs)
  }

  // -------------------------------------------------------------- settling

  /** Column `i` of the values collected in the nodes of `c`. */
  ghost function TempCol(g: Tree, c: set<NodeId>, i: nat): map<NodeId, int> {
    map x | x in g && x in c && i < |g[x].temp| :: g[x].temp[i]
  }

  /** What a node of `c` gains in column `i`: the sum over its whole subtree,
      except that A and S columns only take the node's own value. */
  ghost function Gain(cfg: Config, g: Tree, c: set<NodeId>, x: NodeId, i: nat): int
    requires i < |cfg.meta|
  {
    if cfg.meta[i].isStatic || cfg.meta[i].accumulated then Get(TempCol(g, c, i), x)
    else Sum(Subtree(Par(g), x), TempCol(g, c, i))
  }

  ghost function GainCol(cfg: Config, g: Tree, c: set<NodeId>, i: nat): map<NodeId, int>
    requires i < |cfg.meta|
  {
    map x | x in g && x in c :: Gain(cfg, g, c, x, i)
  }

  /** What a node's children gain together; static columns have no sums. */
  ghost function ChildGain(cfg: Config, g: Tree, c: set<NodeId>, kids: set<NodeId>, i: nat): int
    requires i < |cfg.meta|
  {
    if cfg.meta[i].isStatic then 0 else Sum(kids, GainCol(cfg, g, c, i))
  }

  ghost function Gains(cfg: Config, g: Tree, c: set<NodeId>, x: NodeId): (s: seq<int>)
    ensures |s| == |cfg.meta|
    ensures forall i :: 0 <= i < |s| ==> s[i] == Gain(cfg, g, c, x, i)
  {
    seq(|cfg.meta|, i requires 0 <= i < |cfg.meta| => Gain(cfg, g, c, x, i))
  }

  ghost function ChildGains(cfg: Config, g: Tree, c: set<NodeId>, kids: set<NodeId>): (s: seq<int>)
    ensures |s| == |cfg.meta|
    ensures forall i :: 0 <= i < |s| ==> s[i] == ChildGain(cfg, g, c, kids, i)
  {
    seq(|cfg.meta|, i requires 0 <= i < |cfg.meta| => ChildGain(cfg, g, c, kids, i))
  }

  /** Old values plus gains; static columns are replaced. Stripped vectors stay empty. */
  ghost function Absorb(cfg: Config, values: seq<int>, gains: seq<int>, replace: bool): (s: seq<int>)
    requires |gains| == |cfg.meta| && |values| <= |gains|
    ensures |s| == |values|
    ensures forall i :: 0 <= i < |s| ==>
              s[i] == if replace && cfg.meta[i].isStatic then gains[i] else values[i] + gains[i]
  {
    seq(|values|, i requires 0 <= i < |values| =>
      if replace && cfg.meta[i].isStatic then gains[i] else values[i] + gains[i])
  }

  ghost function SettledNode(cfg: Config, g: Tree, c: set<NodeId>, x: NodeId): Node
    requires x in g && ValidNode(cfg, g, x)
  {
    var node := g[x];
    if x !in c then node
    else
      var gains := Gains(cfg, g, c, x);
      node.(dirty := false,
            temp := gains,
            all := Absorb(cfg, node.all, gains, true),
            cld := Absorb(cfg, node.cld, ChildGains(cfg, g, c, node.children), false),
            callCount := node.callCount + node.tempCount)
  }

  ghost function SettledSlice(cfg: Config, g: Tree, c: set<NodeId>, x: NodeId): SliceNode
    requires x in g
  {
    SliceNode(Gains(cfg, g, c, x), ChildGains(cfg, g, c, g[x].children), g[x].tempCount)
  }

  ghost function Settle(cfg: Config, g: Tree, c: set<NodeId>): Tree
    requires ValidTree(cfg, g)
  {
    map x | x in g :: assert ValidNode(cfg, g, x); SettledNode(cfg, g, c, x)
  }

  ghost function SettledSlices(cfg: Config, g: Tree, c: set<NodeId>, within: set<NodeId>): map<NodeId, SliceNode> {
    map x | x in g && x in within && x in c :: SettledSlice(cfg, g, c, x)
  }

  // ---------------------------------------------------------------- lemmas

  lemma AddNodeValid(cfg: Config, tree: Tree, r: Record)
    requires ValidTree(cfg, tree)
    requires r.id in tree || (r.parent in tree && r.parent < r.id)
    ensures ValidTree(cfg, AddNode(cfg, tree, r))
    ensures Extends(Par(tree), Par(AddNode(cfg, tree, r)))
  {
    var big := AddNode(cfg, tree, r);
    if r.id !in tree {
      var a, b := Par(tree), Par(big);
      assert b == a[r.id := r.parent];
      forall x | x in b
        ensures Hangs(b, x)
      {
        assert x in a ==> Hangs(a, x);
      }
      forall x | x in big
        ensures ValidNode(cfg, big, x)
      {
        assert x in tree ==> ValidNode(cfg, tree, x);
        assert Kids(b, x) == if x == r.parent then Kids(a, x) + {r.id} else Kids(a, x) by {
          if x == r.id && Kids(a, x) != {} {
            var y :| y in Kids(a, x);
            assert y in a && a[y] == x;
          }
        }
        if x == r.id {
          assert Kids(a, x) == {} by {
            forall y | y in a
              ensures a[y] != x
            {
              assert Hangs(a, y);
            }
          }
        }
      }
    }
  }

  lemma {:induction false} AddAllValid(cfg: Config, tree: Tree, recs: seq<Record>)
    requires ValidTree(cfg, tree) && Storable(tree.Keys, recs)
    ensures ValidTree(cfg, AddAll(cfg, tree, recs))
    ensures Extends(Par(tree), Par(AddAll(cfg, tree, recs)))
  {
    if recs != [] {
      var init, r := recs[..|recs| - 1], recs[|recs| - 1];
      StorablePrefix(tree.Keys, recs);
      AddAllValid(cfg, tree, init);
      StorableLast(tree.Keys, recs);
      AddNodeValid(cfg, AddAll(cfg, tree, init), r);
    }
  }

  /** Nothing but parents and vector sizes matters for validity. */
  lemma SameOutlineValid(cfg: Config, a: Tree, b: Tree)
    requires ValidTree(cfg, a) && b.Keys == a.Keys
    requires forall x :: x in a ==>
      && b[x].parent == a[x].parent && b[x].children == a[x].children
      && |b[x].all| == |a[x].all| && |b[x].cld| == |a[x].cld| && |b[x].temp| == |a[x].temp|
    ensures Par(b) == Par(a)
    ensures ValidTree(cfg, b)
  {
    assert Par(b) == Par(a);
    forall x | x in b
      ensures ValidNode(cfg, b, x)
    {
      assert ValidNode(cfg, a, x);
    }
  }

  ghost predicate RecordWidths(cfg: Config, recs: seq<Record>) {
    forall k :: 0 <= k < |recs| ==> |recs[k].values| == |cfg.meta|
  }

  /** Names and parents of a tree, which decide what is seen, and nothing else. */
  ghost predicate SameOutline(a: Tree, b: Tree) {
    a.Keys == b.Keys && forall x :: x in a ==> b[x].parent == a[x].parent && b[x].name == a[x].name
  }

  lemma SameSeen(cfg: Config, a: Tree, b: Tree)
    requires SameOutline(a, b)
    ensures Par(a) == Par(b) && Attrs(cfg, a) == Attrs(cfg, b) && Seen(cfg, a) == Seen(cfg, b)
  {
    assert Par(a) == Par(b);
  }

  /** New nodes do not change what is seen of the old ones. */
  lemma SeenGrows(cfg: Config, tree: Tree, recs: seq<Record>, x: NodeId)
    requires ValidTree(cfg, tree) && Storable(tree.Keys, recs) && x in tree
    ensures x in Seen(cfg, AddAll(cfg, tree, recs)) <==> x in Seen(cfg, tree)
  {
    var big := AddAll(cfg, tree, recs);
    AddAllValid(cfg, tree, recs);
    AddAllNames(cfg, tree, recs);
    VisibleGrow(Par(tree), Par(big), Attrs(cfg, tree), Attrs(cfg, big), x);
  }

  /** Old nodes keep their names and ids, and those of them that are dirty are all that are. */
  lemma {:induction false} AddAllNames(cfg: Config, tree: Tree, recs: seq<Record>)
    requires Storable(tree.Keys, recs)
    ensures var big := AddAll(cfg, tree, recs);
      && (forall x :: x in tree ==> big[x].name == tree[x].name && big[x].gnid == tree[x].gnid)
      && Dirty(big) == Dirty(tree)
  {
    if recs != [] {
      StorablePrefix(tree.Keys, recs);
      StorableLast(tree.Keys, recs);
      var init := recs[..|recs| - 1];
      AddAllNames(cfg, tree, init);
      AddNodeNames(cfg, AddAll(cfg, tree, init), recs[|recs| - 1]);
    }
  }

  lemma AddNodeNames(cfg: Config, tree: Tree, r: Record)
    requires r.id in tree || r.parent in tree
    ensures var big := AddNode(cfg, tree, r);
      && (forall x :: x in tree ==> x in big && big[x].name == tree[x].name && big[x].gnid == tree[x].gnid)
      && Dirty(big) == Dirty(tree)
  {
    var big := AddNode(cfg, tree, r);
    forall x | x in big
      ensures big[x].dirty <==> x in tree && tree[x].dirty
    {
    }
  }

  /** What is marked and seen is closed under parents: what stops a walk is not seen. */
  lemma MarkedClosed(par: Parents, cut: set<nat>, stop: set<nat>, seeds: set<nat>)
    requires WellFormed(par) && stop !! Visibles(par, cut)
    ensures UpClosed(par, Walked(par, stop, seeds) * Visibles(par, cut))
  {
    var c := Walked(par, stop, seeds) * Visibles(par, cut);
    forall x | x in c && x in par
      ensures ClosedAt(par, c, x)
    {
      var s :| s in seeds && Reach(par, stop, x, s);
      assert Hangs(par, x);
      if par[x] in par {
        var up := par[x];
        assert up in Visibles(par, cut);
        assert Reach(par, stop, up, x) by {
          ReachUnder(par, stop, x, s);
          assert Reach(par, stop, up, up);
        }
        ReachTrans(par, stop, up, x, s);
      }
    }
  }

  lemma StagedValid(cfg: Config, tree: Tree, run: NodeId, recs: seq<Record>)
    requires ValidTree(cfg, tree) && Quiet(cfg, tree)
    requires Storable(tree.Keys, recs) && RecordWidths(cfg, recs)
    ensures var g, big := Staged(cfg, tree, run, recs), AddAll(cfg, tree, recs);
      && ValidTree(cfg, g) && UpClosed(Par(g), Collected(cfg, g))
      && Par(g) == Par(big) && Seen(cfg, g) == Seen(cfg, big) && g.Keys == big.Keys
      && Dirty(g) == Dirty(tree) + MarkSet(tree, big, run, recs)
      && Collected(cfg, g) == MarkSet(tree, big, run, recs) * Seen(cfg, g)
  {
    var big := AddAll(cfg, tree, recs);
    var marked := MarkSet(tree, big, run, recs);
    AddAllValid(cfg, tree, recs);
    AddAllNames(cfg, tree, recs);
    forall x | Latest(recs, x).Some?
      ensures x in marked || x in Dirty(big)
    {
      ReportedMarked(tree, big, run, recs, x);
    }
    StageTreeValid(cfg, big, marked, RunningSet(tree, big, run), recs);
    StaleUnseen(cfg, tree, recs);
    MarkedClosed(Par(big), Attrs(cfg, big), Dirty(tree), Seeds(tree, run, recs));
    MeetOutside(Dirty(tree), marked, Seen(cfg, big));
  }

  lemma MeetOutside(a: set<NodeId>, b: set<NodeId>, s: set<NodeId>)
    requires a !! s
    ensures (a + b) * s == b * s
  {
  }

  lemma StaleUnseen(cfg: Config, tree: Tree, recs: seq<Record>)
    requires ValidTree(cfg, tree) && Quiet(cfg, tree) && Storable(tree.Keys, recs)
    ensures Dirty(tree) !! Seen(cfg, AddAll(cfg, tree, recs))
  {
    forall x | x in Dirty(tree)
      ensures x !in Seen(cfg, AddAll(cfg, tree, recs))
    {
      SeenGrows(cfg, tree, recs, x);
      assert x !in Collected(cfg, tree);
    }
  }

  lemma ReportedMarked(tree: Tree, big: Tree, run: NodeId, recs: seq<Record>, x: NodeId)
    requires Ids(recs) <= big.Keys && Latest(recs, x).Some?
    ensures x in MarkSet(tree, big, run, recs) || x in Dirty(tree)
  {
    IdsAreReported(recs, x);
    assert x in Seeds(tree, run, recs);
    if x !in Dirty(tree) {
      assert Reach(Par(big), Dirty(tree), x, x);
    }
  }

  lemma StageTreeValid(cfg: Config, big: Tree, marked: set<NodeId>, running: set<NodeId>, recs: seq<Record>)
    requires ValidTree(cfg, big) && RecordWidths(cfg, recs) && marked <= big.Keys
    requires forall x :: Latest(recs, x).Some? ==> x in marked || x in Dirty(big)
    ensures var g := StageTree(cfg, big, marked, running, recs);
      && ValidTree(cfg, g) && SameOutline(big, g) && Par(g) == Par(big) && Seen(cfg, g) == Seen(cfg, big)
      && Dirty(g) == Dirty(big) + marked
  {
    var g := StageTree(cfg, big, marked, running, recs);
    forall x | x in big
      ensures g[x].dirty <==> x in marked || big[x].dirty
      ensures g[x].name == big[x].name
      ensures && g[x].parent == big[x].parent && g[x].children == big[x].children
              && |g[x].all| == |big[x].all| && |g[x].cld| == |big[x].cld| && |g[x].temp| == |big[x].temp|
    {
      assert ValidNode(cfg, big, x);
      StageShape(cfg, big[x], x in marked, x in running, Latest(recs, x));
    }
    SameOutlineValid(cfg, big, g);
    SameSeen(cfg, big, g);
  }

  lemma StageShape(cfg: Config, node: Node, marked: bool, running: bool, r: Option<Record>)
    requires |node.temp| == |cfg.meta|
    requires r.Some? ==> |r.value.values| == |cfg.meta| && (marked || node.dirty)
    ensures var n := Stage(cfg, node, marked, running, r);
      && n.parent == node.parent && n.children == node.children && n.name == node.name
      && n.all == node.all && n.cld == node.cld && |n.temp| == |node.temp|
      && n.dirty == (marked || node.dirty)
  {
  }

  /** A node outside a set closed under parents has nothing of it below. */
  lemma NothingBelow(g: Tree, c: set<NodeId>, x: NodeId, i: nat)
    requires WellFormed(Par(g)) && UpClosed(Par(g), c)
    requires x in g && x !in c
    ensures Sum(Subtree(Par(g), x), TempCol(g, c, i)) == 0
    ensures forall y :: y in Subtree(Par(g), x) ==> y !in c
  {
    forall y | y in Subtree(Par(g), x)
      ensures y !in c
    {
      if y in c {
        UpClosedMisses(Par(g), c, x, y);
      }
    }
    SumZero(Subtree(Par(g), x), TempCol(g, c, i));
  }

  /** The recursion the clearing algorithm runs on: in a plain column a node
      gains its own value and what its children gain. */
  lemma GainSplit(cfg: Config, g: Tree, c: set<NodeId>, x: NodeId, i: nat)
    requires ValidTree(cfg, g) && UpClosed(Par(g), c) && x in g && x in c
    requires i < |cfg.meta| && !cfg.meta[i].isStatic && !cfg.meta[i].accumulated
    ensures ValidNode(cfg, g, x)
    ensures Gain(cfg, g, c, x, i) == g[x].temp[i] + Sum(g[x].children, GainCol(cfg, g, c, i))
  {
    var par, d := Par(g), TempCol(g, c, i);
    assert ValidNode(cfg, g, x);
    SubtreeSplit(par, d, x);
    forall k | k in Kids(par, x)
      ensures Get(SubtreeSums(par, d), k) == Get(GainCol(cfg, g, c, i), k)
    {
      if k !in c {
        NothingBelow(g, c, k, i);
      }
    }
    SumSame(Kids(par, x), SubtreeSums(par, d), GainCol(cfg, g, c, i));
  }

  // ------------------------------------------------------- a whole store

  /** The tree after one buffer has been stored. */
  ghost function StoreTree(cfg: Config, tree: Tree, run: NodeId, recs: seq<Record>): Tree
    requires ValidTree(cfg, tree) && Quiet(cfg, tree)
    requires Storable(tree.Keys, recs) && RecordWidths(cfg, recs)
  {
    StagedValid(cfg, tree, run, recs);
    var g := Staged(cfg, tree, run, recs);
    Settle(cfg, g, Collected(cfg, g))
  }

  /** The slice that records what this one store changed. */
  ghost function StoreSlice(cfg: Config, tree: Tree, run: NodeId, recs: seq<Record>): map<NodeId, SliceNode>
    requires Storable(tree.Keys, recs)
  {
    var g := Staged(cfg, tree, run, recs);
    SettledSlices(cfg, g, Collected(cfg, g), g.Keys)
  }

  /** The global id of a non-root node is the hash of its parent's and its name. */
  ghost predicate GnidOk(cfg: Config, tree: Tree, x: NodeId)
    requires x in tree
  {
    if x == ROOT then tree[x].gnid == 1
    else tree[x].parent in tree
         && tree[x].gnid == cfg.hash(PathKey(tree[tree[x].parent].gnid, cfg.nameOf(tree[x].name)))
  }

  ghost predicate GnidsOk(cfg: Config, tree: Tree) {
    forall x {:trigger GnidOk(cfg, tree, x)} :: x in tree ==> GnidOk(cfg, tree, x)
  }

  /** Running flags are set on ancestors of the running node only. */
  ghost predicate RunningOk(tree: Tree, run: NodeId) {
    forall x :: x in tree && tree[x].running ==> Under(Par(tree), x, run)
  }

  lemma SettleValid(cfg: Config, g: Tree, c: set<NodeId>)
    requires ValidTree(cfg, g)
    ensures var t := Settle(cfg, g, c);
      && ValidTree(cfg, t) && SameOutline(g, t) && Par(t) == Par(g) && Seen(cfg, t) == Seen(cfg, g)
      && Dirty(t) == Dirty(g) - c
  {
    var t := Settle(cfg, g, c);
    forall x | x in g
      ensures |SettledNode(cfg, g, c, x).temp| == |g[x].temp|
    {
      assert ValidNode(cfg, g, x);
    }
    SameOutlineValid(cfg, g, t);
    SameSeen(cfg, g, t);
  }

  lemma {:induction false} AddAllGnids(cfg: Config, tree: Tree, recs: seq<Record>)
    requires ValidTree(cfg, tree) && GnidsOk(cfg, tree) && Storable(tree.Keys, recs)
    ensures GnidsOk(cfg, AddAll(cfg, tree, recs))
  {
    if recs != [] {
      var init, r := recs[..|recs| - 1], recs[|recs| - 1];
      StorablePrefix(tree.Keys, recs);
      AddAllGnids(cfg, tree, init);
      AddAllValid(cfg, tree, init);
      StorableLast(tree.Keys, recs);
      var a := AddAll(cfg, tree, init);
      var b := AddNode(cfg, a, r);
      forall x | x in b
        ensures GnidOk(cfg, b, x)
      {
        assert x in a ==> GnidOk(cfg, a, x);
      }
    }
  }

  lemma StoreValid(cfg: Config, tree: Tree, run: NodeId, recs: seq<Record>)
    requires ValidTree(cfg, tree) && Quiet(cfg, tree) && GnidsOk(cfg, tree)
    requires Storable(tree.Keys, recs) && RecordWidths(cfg, recs)
    ensures var t := StoreTree(cfg, tree, run, recs);
      && ValidTree(cfg, t) && Quiet(cfg, t) && GnidsOk(cfg, t) && RunningOk(t, run)
      && t.Keys == tree.Keys + Ids(recs)
      && Par(t) == Par(AddAll(cfg, tree, recs))
  {
    var big, g := AddAll(cfg, tree, recs), Staged(cfg, tree, run, recs);
    StagedValid(cfg, tree, run, recs);
    AddAllGnids(cfg, tree, recs);
    StagingKeeps(cfg, big, MarkSet(tree, big, run, recs), RunningSet(tree, big, run), run, recs);
    SettleValid(cfg, g, Collected(cfg, g));
    SettlingKeeps(cfg, g, Collected(cfg, g), run);
  }

  /** A store leaves the tree clean exactly if no dirty node had a node above it,
      other than the root, whose name begins with '#' when clearing began. */
  lemma CleanIffSeen(cfg: Config, tree: Tree, run: NodeId, recs: seq<Record>)
    requires ValidTree(cfg, tree) && Quiet(cfg, tree)
    requires Storable(tree.Keys, recs) && RecordWidths(cfg, recs)
    ensures var g := Staged(cfg, tree, run, recs);
      Clean(StoreTree(cfg, tree, run, recs))
      <==> !exists x, a ::
             && x in g && g[x].dirty && a in g && a != ROOT && a != x && Under(Par(g), a, x)
             && cfg.nameOf(g[a].name) != "" && cfg.nameOf(g[a].name)[0] == '#'
  {
    var g := Staged(cfg, tree, run, recs);
    StagedValid(cfg, tree, run, recs);
    SettleValid(cfg, g, Collected(cfg, g));
    CleanIffAllSeen(cfg, g, StoreTree(cfg, tree, run, recs));
  }

  lemma CleanIffAllSeen(cfg: Config, g: Tree, t: Tree)
    requires WellFormed(Par(g)) && Dirty(t) == Dirty(g) - Collected(cfg, g)
    ensures Clean(t) <==> forall x, a :: x in Dirty(g) && a in Attrs(cfg, g) && Under(Par(g), a, x) ==> a == x
  {
    forall x | x in Dirty(g)
      ensures x !in Dirty(t) <==> forall a :: a in Attrs(cfg, g) && Under(Par(g), a, x) ==> a == x
    {
      VisibleIff(Par(g), Attrs(cfg, g), x);
      assert x in Par(g);
    }
    assert forall x :: x in Dirty(t) ==> x in Dirty(g);
    if Clean(t) {
      assert Dirty(t) == {};
    } else {
      var x :| x in t && t[x].dirty;
      assert x in Dirty(t);
    }
  }

  lemma StagingKeeps(
    cfg: Config, big: Tree, marked: set<NodeId>, running: set<NodeId>, run: NodeId, recs: seq<Record>)
    requires GnidsOk(cfg, big) && running <= UpClosure(Par(big), {run})
    ensures var g := StageTree(cfg, big, marked, running, recs); GnidsOk(cfg, g) && RunningOk(g, run)
  {
    var g := StageTree(cfg, big, marked, running, recs);
    assert Par(g) == Par(big);
    forall x | x in big
      ensures g[x].parent == big[x].parent && g[x].gnid == big[x].gnid && g[x].name == big[x].name
      ensures g[x].running == (x in running)
    {
    }
    SameGnids(cfg, big, g);
  }

  lemma SettlingKeeps(cfg: Config, g: Tree, c: set<NodeId>, run: NodeId)
    requires ValidTree(cfg, g) && GnidsOk(cfg, g) && RunningOk(g, run)
    ensures GnidsOk(cfg, Settle(cfg, g, c)) && RunningOk(Settle(cfg, g, c), run)
  {
    var t := Settle(cfg, g, c);
    SettleValid(cfg, g, c);
    forall x | x in g
      ensures t[x].parent == g[x].parent && t[x].gnid == g[x].gnid && t[x].name == g[x].name
      ensures t[x].running == g[x].running
    {
    }
    SameGnids(cfg, g, t);
  }

  lemma SameGnids(cfg: Config, a: Tree, b: Tree)
    requires GnidsOk(cfg, a) && a.Keys == b.Keys
    requires forall x :: x in a ==> b[x].parent == a[x].parent && b[x].gnid == a[x].gnid && b[x].name == a[x].name
    ensures GnidsOk(cfg, b)
  {
    forall x | x in b
      ensures GnidOk(cfg, b, x)
    {
      assert GnidOk(cfg, a, x);
    }
  }

  // ------------------------------------- one more record, step by step

  ghost function WithTemp(node: Node, r: Record): Node {
    node.(temp := r.values, tempCount := r.callCount)
  }

  /** Marking and filling a staged node stages it again. */
  lemma StageAgain(
    cfg: Config, node: Node, marked: bool, running: bool, o: Option<Record>, more: bool, r: Record, wider: bool)
    requires marked ==> !node.dirty
    requires o.Some? ==> marked || node.dirty
    requires more ==> !marked && !node.dirty
    requires wider == (marked || more)
    ensures var s := Stage(cfg, node, marked, running, o);
      && (if more then Marked(cfg, s) else s) == Stage(cfg, node, wider, running, o)
      && WithTemp(Marked(cfg, s), r) == Stage(cfg, node, wider, running, Some(r))
  {
    assert DefaultTemp(cfg, Stage(cfg, node, marked, running, o)) == DefaultTemp(cfg, node);
  }

  lemma AddToStaged(cfg: Config, small: Tree, r: Record, marked: set<NodeId>, running: set<NodeId>, init: seq<Record>)
    requires r.id in small || r.parent in small
    requires marked <= small.Keys && running <= small.Keys
    requires r.id !in small ==> Latest(init, r.id).None?
    ensures AddNode(cfg, StageTree(cfg, small, marked, running, init), r)
         == StageTree(cfg, AddNode(cfg, small, r), marked, running, init)
  {
    var a := AddNode(cfg, StageTree(cfg, small, marked, running, init), r);
    var b := StageTree(cfg, AddNode(cfg, small, r), marked, running, init);
    assert a.Keys == b.Keys;
    forall x | x in b
      ensures a[x] == b[x]
    {
      AddToStagedAt(cfg, small, r, marked, running, init, x);
    }
  }

  lemma AddToStagedAt(
    cfg: Config, small: Tree, r: Record, marked: set<NodeId>, running: set<NodeId>, init: seq<Record>, x: NodeId)
    requires r.id in small || r.parent in small
    requires marked <= small.Keys && running <= small.Keys
    requires r.id !in small ==> Latest(init, r.id).None?
    requires x in AddNode(cfg, small, r)
    ensures AddNode(cfg, StageTree(cfg, small, marked, running, init), r)[x]
         == StageTree(cfg, AddNode(cfg, small, r), marked, running, init)[x]
  {
    if r.id !in small && x == r.id {
      assert x !in marked && x !in running;
    }
  }

  /** `recs` extends a sequence whose records all concern dirty nodes by one;
      walking up from `id` to the first dirty node widens what is marked. */
  ghost predicate Widens(
    par: Parents, stop: set<NodeId>, marked: set<NodeId>, wider: set<NodeId>,
    init: seq<Record>, recs: seq<Record>, id: NodeId)
  {
    && recs != [] && init == recs[..|recs| - 1] && id == recs[|recs| - 1].id && id in par
    && marked !! stop
    && (forall x {:trigger WidensAt(par, stop, marked, wider, id, x)} :: x in par ==>
          WidensAt(par, stop, marked, wider, id, x))
    && Covered(init, marked, stop)
  }

  ghost predicate WidensAt(
    par: Parents, stop: set<NodeId>, marked: set<NodeId>, wider: set<NodeId>, id: NodeId, x: NodeId)
  {
    x in wider <==> x in marked || Reach(par, stop + marked, x, id)
  }

  ghost predicate Covered(recs: seq<Record>, marked: set<NodeId>, stop: set<NodeId>) {
    forall x :: Latest(recs, x).Some? ==> x in marked || x in stop
  }

  lemma MarkStagedAt(
    cfg: Config, big: Tree, marked: set<NodeId>, wider: set<NodeId>, running: set<NodeId>,
    init: seq<Record>, recs: seq<Record>, r: Record, x: NodeId)
    requires Widens(Par(big), Dirty(big), marked, wider, init, recs, r.id) && r == recs[|recs| - 1]
    requires x in big
    ensures var s := Stage(cfg, big[x], x in marked, x in running, Latest(init, x));
      Stage(cfg, big[x], x in wider, x in running, Latest(recs, x))
      == if x == r.id then WithTemp(Marked(cfg, s), r)
         else if Reach(Par(big), Dirty(big) + marked, x, r.id) then Marked(cfg, s) else s
  {
    var more := Reach(Par(big), Dirty(big) + marked, x, r.id);
    assert WidensAt(Par(big), Dirty(big), marked, wider, r.id, x);
    if more {
      ReachUnder(Par(big), Dirty(big) + marked, x, r.id);
    }
    StageAgain(cfg, big[x], x in marked, x in running, Latest(init, x), more, r, x in wider);
  }

  /** What one record does to a tree that has a node for it. */
  ghost function Fill(cfg: Config, tree: Tree, r: Record): Tree
    requires r.id in tree
  {
    map x | x in tree ::
      if x == r.id then WithTemp(Marked(cfg, tree[x]), r)
      else if Reach(Par(tree), Dirty(tree), x, r.id) then Marked(cfg, tree[x]) else tree[x]
  }

  lemma MarkStaged(
    cfg: Config, big: Tree, marked: set<NodeId>, wider: set<NodeId>, running: set<NodeId>,
    init: seq<Record>, recs: seq<Record>, r: Record)
    requires Widens(Par(big), Dirty(big), marked, wider, init, recs, r.id) && r == recs[|recs| - 1]
    requires marked <= big.Keys
    ensures Fill(cfg, StageTree(cfg, big, marked, running, init), r)
         == StageTree(cfg, big, wider, running, recs)
  {
    var g := StageTree(cfg, big, marked, running, init);
    StagedDirty(cfg, big, marked, running, init);
    var a, b := Fill(cfg, g, r), StageTree(cfg, big, wider, running, recs);
    forall x | x in big
      ensures a[x] == b[x]
    {
      MarkStagedAt(cfg, big, marked, wider, running, init, recs, r, x);
    }
    assert a.Keys == b.Keys;
  }

  lemma StagedDirty(cfg: Config, big: Tree, marked: set<NodeId>, running: set<NodeId>, recs: seq<Record>)
    requires marked <= big.Keys && Covered(recs, marked, Dirty(big))
    ensures var g := StageTree(cfg, big, marked, running, recs);
      Par(g) == Par(big) && Dirty(g) == Dirty(big) + marked
  {
    var g := StageTree(cfg, big, marked, running, recs);
    forall x | x in big
      ensures g[x].dirty <==> x in marked || big[x].dirty
    {
    }
    assert Par(g) == Par(big);
  }

  /** One more record adds at most one node, below a known one. */
  lemma AddAllStep(cfg: Config, tree: Tree, init: seq<Record>, recs: seq<Record>, r: Record)
    requires ValidTree(cfg, tree) && Storable(tree.Keys, recs)
    requires recs != [] && init == recs[..|recs| - 1] && r == recs[|recs| - 1]
    ensures Storable(tree.Keys, init)
    ensures var small, big := AddAll(cfg, tree, init), AddAll(cfg, tree, recs);
      && (r.id in small || (r.parent in small && r.parent < r.id))
      && big == AddNode(cfg, small, r)
      && ValidTree(cfg, small) && ValidTree(cfg, big) && Dirty(big) == Dirty(tree)
      && Extends(Par(small), Par(big))
  {
    StorablePrefix(tree.Keys, recs);
    StorableLast(tree.Keys, recs);
    AddAllValid(cfg, tree, init);
    AddNodeValid(cfg, AddAll(cfg, tree, init), r);
    AddAllNames(cfg, tree, recs);
  }

  lemma WalkedGrows(par: Parents, big: Parents, stop: set<nat>, seeds: set<nat>)
    requires WellFormed(par) && WellFormed(big) && seeds <= par.Keys && Extends(par, big)
    ensures Walked(big, stop, seeds) == Walked(par, stop, seeds)
  {
    forall x, y | y in seeds
      ensures Reach(big, stop, x, y) == Reach(par, stop, x, y)
      ensures Reach(par, stop, x, y) ==> x in par
    {
      ReachGrow(par, big, stop, x, y);
      if Reach(par, stop, x, y) {
        ReachUnder(par, stop, x, y);
      }
    }
  }

  /** Walking from one more seed up to what is marked already, or from all seeds
      up to what was dirty before, marks the same nodes. */
  lemma WalkedMore(par: Parents, stop: set<nat>, seeds: set<nat>, s: nat, x: nat)
    requires x in par
    ensures x in Walked(par, stop, seeds + {s})
       <==> x in Walked(par, stop, seeds) || Reach(par, stop + Walked(par, stop, seeds), x, s)
  {
    var walked := Walked(par, stop, seeds);
    if Reach(par, stop + walked, x, s) {
      ReachFewer(par, stop, stop + walked, x, s);
    } else if Reach(par, stop, x, s) {
      var y := ReachMeets(par, stop, stop + walked, x, s);
      var t :| t in seeds && Reach(par, stop, y, t);
      ReachTrans(par, stop, x, y, t);
    }
  }

  lemma WalkedFree(par: Parents, stop: set<nat>, seeds: set<nat>)
    ensures Walked(par, stop, seeds) !! stop
    ensures forall s :: s in seeds && s in par && s !in stop ==> s in Walked(par, stop, seeds)
  {
    forall y, s | s in seeds && Reach(par, stop, y, s)
      ensures y !in stop
    {
      ReachUnder(par, stop, y, s);
    }
    forall s | s in seeds && s in par && s !in stop
      ensures s in Walked(par, stop, seeds)
    {
      assert Reach(par, stop, s, s);
    }
  }

  /** The facts about marked sets behind one step of `Store`'s loop. */
  lemma StepWidens(cfg: Config, tree: Tree, run: NodeId, init: seq<Record>, recs: seq<Record>, r: Record)
    requires ValidTree(cfg, tree) && Storable(tree.Keys, recs)
    requires recs != [] && init == recs[..|recs| - 1] && r == recs[|recs| - 1]
    ensures Storable(tree.Keys, init)
    ensures var small, big := AddAll(cfg, tree, init), AddAll(cfg, tree, recs);
      && Widens(Par(big), Dirty(tree), MarkSet(tree, small, run, init), MarkSet(tree, big, run, recs),
                init, recs, r.id)
      && RunningSet(tree, big, run) == RunningSet(tree, small, run)
  {
    AddAllStep(cfg, tree, init, recs, r);
    var small, big := AddAll(cfg, tree, init), AddAll(cfg, tree, recs);
    AddAllValid(cfg, tree, init);
    SeedsWiden(Par(small), Par(big), Dirty(tree), Seeds(tree, run, init), Seeds(tree, run, recs), init, recs, r.id);
    RunningStays(Par(small), Par(big), if run in tree then {run} else {});
  }

  lemma RunningStays(par: Parents, big: Parents, roots: set<NodeId>)
    requires WellFormed(par) && WellFormed(big) && roots <= par.Keys && Extends(par, big)
    ensures UpClosure(big, roots) == UpClosure(par, roots)
  {
    forall x, y | y in roots
      ensures Under(big, x, y) == Under(par, x, y)
      ensures Under(par, x, y) ==> x in par
    {
      UnderGrow(par, big, x, y);
      if Under(par, x, y) {
        UnderOrder(par, x, y);
      }
    }
  }

  lemma SeedsWiden(
    par: Parents, big: Parents, stop: set<NodeId>, seeds: set<NodeId>, more: set<NodeId>,
    init: seq<Record>, recs: seq<Record>, id: NodeId)
    requires WellFormed(par) && WellFormed(big) && Ids(init) <= seeds <= par.Keys && id in big
    requires Extends(par, big) && more == seeds + {id}
    requires recs != [] && init == recs[..|recs| - 1] && id == recs[|recs| - 1].id
    ensures Widens(big, stop, Walked(par, stop, seeds), Walked(big, stop, more), init, recs, id)
  {
    var walked := Walked(par, stop, seeds);
    WalkedGrows(par, big, stop, seeds);
    WalkedFree(par, stop, seeds);
    forall x | x in big
      ensures WidensAt(big, stop, walked, Walked(big, stop, more), id, x)
    {
      WalkedMore(big, stop, seeds, id, x);
    }
    SeedsCovered(par, stop, seeds, init);
  }

  lemma SeedsCovered(par: Parents, stop: set<NodeId>, seeds: set<NodeId>, recs: seq<Record>)
    requires Ids(recs) <= seeds <= par.Keys
    ensures Covered(recs, Walked(par, stop, seeds), stop)
  {
    WalkedFree(par, stop, seeds);
    forall x | Latest(recs, x).Some?
      ensures x in Walked(par, stop, seeds) || x in stop
    {
      IdsAreReported(recs, x);
    }
  }

  /** Adding, marking and filling one record takes the staged tree of a prefix
      to that of the longer prefix. */
  lemma StagedStep(cfg: Config, tree: Tree, run: NodeId, init: seq<Record>, recs: seq<Record>, r: Record)
    requires ValidTree(cfg, tree) && Storable(tree.Keys, recs)
    requires recs != [] && init == recs[..|recs| - 1] && r == recs[|recs| - 1]
    ensures Storable(tree.Keys, init)
    ensures var g := Staged(cfg, tree, run, init);
      && (r.id in g || (r.parent in g && r.parent < r.id))
      && r.id in AddNode(cfg, g, r)
      && Fill(cfg, AddNode(cfg, g, r), r) == Staged(cfg, tree, run, recs)
  {
    AddAllStep(cfg, tree, init, recs, r);
    StepWidens(cfg, tree, run, init, recs, r);
    IdsAreReported(init, r.id);
    var small, big := AddAll(cfg, tree, init), AddAll(cfg, tree, recs);
    var marked, running := MarkSet(tree, small, run, init), RunningSet(tree, small, run);
    AddToStaged(cfg, small, r, marked, running, init);
    MarkStaged(cfg, big, marked, MarkSet(tree, big, run, recs), running, init, recs, r);
  }
}
