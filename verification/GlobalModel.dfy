/** The single tree that gathers the slices of all threads of all targets. */
module GlobalModel {
  import opened Wire
  import opened Sums
  import opened Forest
  import opened StoreModel
  import opened TimeSlices
  import opened PathIds

  datatype GlobalNode = GlobalNode(parent: nat, gnid: nat, name: string, vals: SliceNode)

  /** `seqOf` numbers the global ids met so far, from 2 up to `seqNum`. */
  datatype Global = Global(tree: map<nat, GlobalNode>, seqOf: map<nat, nat>, seqNum: nat)

  /** One number kept for a node. */
  datatype Entry = All(i: nat) | Cld(i: nat) | Count

  function EntryOf(n: SliceNode, e: Entry): int {
    match e
    case All(i) => if i < |n.all| then n.all[i] else 0
    case Cld(i) => if i < |n.cld| then n.cld[i] else 0
    case Count => n.callCount
  }

  /** Static columns are not gathered. */
  predicate Gathers(cfg: Config, e: Entry) {
    match e
    case All(i) => i < |cfg.meta| && !cfg.meta[i].isStatic
    case Cld(i) => i < |cfg.meta| && !cfg.meta[i].isStatic
    case Count => true
  }

  function FirstGlobal(cfg: Config): Global {
    Global(map[1 := GlobalNode(0, 1, "", ZeroNode(cfg))], map[], 1)
  }

  // -------------------------------------------------------------- numbering

  predicate Known(g: Global, gnid: nat) {
    gnid == 1 || gnid in g.seqOf
  }

  function SeqFor(g: Global, gnid: nat): nat {
    if gnid < 2 then gnid else if gnid in g.seqOf then g.seqOf[gnid] else g.seqNum + 1
  }

  function WithSeq(g: Global, gnid: nat): Global {
    if gnid < 2 || gnid in g.seqOf then g
    else g.(seqOf := g.seqOf[gnid := g.seqNum + 1], seqNum := g.seqNum + 1)
  }

  /** A node's number is larger than its parent's, and its global id is that of
      its parent's id and its own name. */
  ghost predicate Placed(hash: string -> nat, g: Global, d: nat)
    requires d in g.tree
  {
    var n := g.tree[d];
    if d == 1 then n.parent == 0 && n.gnid == 1
    else
      && 1 <= n.parent < d && n.parent in g.tree
      && n.gnid == hash(PathKey(g.tree[n.parent].gnid, n.name))
      && n.gnid >= 2 && n.gnid in g.seqOf && g.seqOf[n.gnid] == d
  }

  ghost predicate Numbered(g: Global, gnid: nat)
    requires gnid in g.seqOf
  {
    var d := g.seqOf[gnid];
    d >= 2 && d in g.tree && g.tree[d].gnid == gnid
  }

  /** Numbering is dense and injective, parents come before children. */
  ghost predicate GlobalOk(cfg: Config, g: Global) {
    && g.seqNum >= 1
    && (forall d :: d in g.tree <==> 1 <= d <= g.seqNum)
    && (forall d {:trigger Placed(cfg.hash, g, d)} :: d in g.tree ==> Placed(cfg.hash, g, d))
    && (forall gnid {:trigger Numbered(g, gnid)} :: gnid in g.seqOf ==> Numbered(g, gnid))
    && (forall d :: d in g.tree ==> NodeWidths(cfg, g.tree[d].vals))
  }

  lemma FirstGlobalOk(cfg: Config)
    ensures GlobalOk(cfg, FirstGlobal(cfg))
  {
    assert Placed(cfg.hash, FirstGlobal(cfg), 1);
  }

  /** Two nodes with the same global id are one. */
  lemma OneNodePerGnid(cfg: Config, g: Global, c: nat, d: nat)
    requires GlobalOk(cfg, g) && c in g.tree && d in g.tree
    ensures g.tree[c].gnid == g.tree[d].gnid <==> c == d
  {
    assert Placed(cfg.hash, g, c) && Placed(cfg.hash, g, d);
  }

  // ------------------------------------------------------ gathering one node

  ghost function AddStep(cfg: Config, a: seq<int>, b: seq<int>): (s: seq<int>)
    requires |a| == |b| == |cfg.meta|
    ensures |s| == |cfg.meta|
    ensures forall i :: 0 <= i < |s| ==> s[i] == if cfg.meta[i].isStatic then a[i] else a[i] + b[i]
  {
    seq(|cfg.meta|, i requires 0 <= i < |cfg.meta| => if cfg.meta[i].isStatic then a[i] else a[i] + b[i])
  }

  ghost function AddOn(cfg: Config, a: SliceNode, b: SliceNode): SliceNode
    requires NodeWidths(cfg, a) && NodeWidths(cfg, b)
  {
    SliceNode(AddStep(cfg, a.all, b.all), AddStep(cfg, a.cld, b.cld), a.callCount + b.callCount)
  }

  lemma AddOnEntry(cfg: Config, a: SliceNode, b: SliceNode, e: Entry)
    requires NodeWidths(cfg, a) && NodeWidths(cfg, b)
    ensures EntryOf(AddOn(cfg, a, b), e) == EntryOf(a, e) + if Gathers(cfg, e) then EntryOf(b, e) else 0
  {
  }

  /** Node `x` of a source tree can be gathered: its parent has been already. */
  ghost predicate Takeable(g: Global, from: Config, src: Tree, x: NodeId) {
    && x in src && GnidOk(from, src, x)
    && (x != ROOT ==> Known(g, src[src[x].parent].gnid) && src[x].gnid >= 2)
    && (x == ROOT ==> src[x].parent !in src)
  }

  ghost function DestNode(cfg: Config, g: Global, from: Config, src: Tree, x: NodeId): GlobalNode
    requires Takeable(g, from, src, x)
  {
    var d := SeqFor(g, src[x].gnid);
    if d in g.tree then g.tree[d]
    else GlobalNode(if x == ROOT then 0 else SeqFor(g, src[src[x].parent].gnid), src[x].gnid,
                    from.nameOf(src[x].name), ZeroNode(cfg))
  }

  ghost function TakeNode(cfg: Config, g: Global, from: Config, src: Tree, x: NodeId, s: SliceNode): Global
    requires Takeable(g, from, src, x) && NodeWidths(cfg, s)
    requires forall d :: d in g.tree ==> NodeWidths(cfg, g.tree[d].vals)
  {
    var node := DestNode(cfg, g, from, src, x);
    var h := WithSeq(g, src[x].gnid);
    h.(tree := h.tree[SeqFor(g, src[x].gnid) := node.(vals := AddOn(cfg, node.vals, s))])
  }

  /** The interval's own slice of the gathering tree takes the same values. */
  ghost function TakeSlice(cfg: Config, t: SliceTree, d: nat, s: SliceNode): SliceTree
    requires NodeWidths(cfg, s) && SliceWidths(cfg, t)
  {
    t[d := AddOn(cfg, NodeOr(cfg, t, d), s)]
  }

  /** `h` has the nodes of `g`, unmoved. */
  ghost predicate Grows(g: Global, h: Global) {
    && (forall d :: d in g.tree ==>
         d in h.tree && h.tree[d].gnid == g.tree[d].gnid && h.tree[d].parent == g.tree[d].parent
         && h.tree[d].name == g.tree[d].name)
    && (forall gnid :: gnid in g.seqOf ==> gnid in h.seqOf && h.seqOf[gnid] == g.seqOf[gnid])
  }

  /** Where node `x` goes, and below which node. */
  lemma DestOk(cfg: Config, g: Global, from: Config, src: Tree, x: NodeId)
    requires GlobalOk(cfg, g) && from.hash == cfg.hash && Takeable(g, from, src, x)
    ensures var gnid, d, n := src[x].gnid, SeqFor(g, src[x].gnid), DestNode(cfg, g, from, src, x);
      && gnid >= 1 && (gnid == 1 ==> d == 1) && (gnid >= 2 ==> d >= 2) && d in g.tree.Keys + {g.seqNum + 1}
      && (d in g.tree <==> Known(g, gnid))
      && n.gnid == gnid && NodeWidths(cfg, n.vals)
      && (d !in g.tree ==> && d == g.seqNum + 1 && 1 <= n.parent < d && n.parent in g.tree
                           && gnid == cfg.hash(PathKey(g.tree[n.parent].gnid, n.name)))
  {
    var gnid := src[x].gnid;
    assert gnid in g.seqOf ==> Numbered(g, gnid);
    assert 1 in g.tree && Placed(cfg.hash, g, 1);
    if x != ROOT {
      var up := src[src[x].parent].gnid;
      assert up in g.seqOf ==> Numbered(g, up) && Placed(cfg.hash, g, g.seqOf[up]);
    }
  }

  lemma TakeNodeOk(cfg: Config, g: Global, from: Config, src: Tree, x: NodeId, s: SliceNode)
    requires GlobalOk(cfg, g) && from.hash == cfg.hash
    requires Takeable(g, from, src, x) && NodeWidths(cfg, s)
    ensures var h, d := TakeNode(cfg, g, from, src, x, s), SeqFor(g, src[x].gnid);
      && GlobalOk(cfg, h) && Grows(g, h)
      && d in h.tree && h.tree[d].gnid == src[x].gnid && h.tree.Keys == g.tree.Keys + {d}
      && Known(h, src[x].gnid) && SeqFor(h, src[x].gnid) == d
  {
    DestOk(cfg, g, from, src, x);
    var node := DestNode(cfg, g, from, src, x);
    Extend(cfg, g, SeqFor(g, src[x].gnid), node.(vals := AddOn(cfg, node.vals, s)));
  }

  /** Putting a known node back with new values, or a new one at the next number. */
  lemma Extend(cfg: Config, g: Global, d: nat, n: GlobalNode)
    requires GlobalOk(cfg, g) && NodeWidths(cfg, n.vals)
    requires d in g.tree ==> n == g.tree[d].(vals := n.vals)
    requires d !in g.tree ==> && d == g.seqNum + 1 && n.gnid >= 2 && n.gnid !in g.seqOf
                              && 1 <= n.parent < d && n.parent in g.tree
                              && n.gnid == cfg.hash(PathKey(g.tree[n.parent].gnid, n.name))
    ensures var w := WithSeq(g, n.gnid); var h := w.(tree := w.tree[d := n]);
      GlobalOk(cfg, h) && Grows(g, h)
  {
    var w := WithSeq(g, n.gnid);
    var h := w.(tree := w.tree[d := n]);
    assert d in g.tree ==> Placed(cfg.hash, g, d);
    if d in g.tree {
      assert h == g.(tree := g.tree[d := n]);
    }
    ExtendPlaced(cfg, g, d, n, h);
    ExtendNumbered(cfg, g, d, n, h);
  }

  lemma ExtendPlaced(cfg: Config, g: Global, d: nat, n: GlobalNode, h: Global)
    requires forall c {:trigger Placed(cfg.hash, g, c)} :: c in g.tree ==> Placed(cfg.hash, g, c)
    requires h.tree == g.tree[d := n] && Grows(g, h)
    requires d !in g.tree ==> && 1 <= n.parent < d && n.parent in g.tree && n.gnid >= 2
                              && n.gnid == cfg.hash(PathKey(g.tree[n.parent].gnid, n.name))
                              && n.gnid in h.seqOf && h.seqOf[n.gnid] == d
    ensures forall c {:trigger Placed(cfg.hash, h, c)} :: c in h.tree ==> Placed(cfg.hash, h, c)
  {
    forall c | c in h.tree
      ensures Placed(cfg.hash, h, c)
    {
      assert c in g.tree ==> Placed(cfg.hash, g, c);
    }
  }

  lemma ExtendNumbered(cfg: Config, g: Global, d: nat, n: GlobalNode, h: Global)
    requires forall k {:trigger Numbered(g, k)} :: k in g.seqOf ==> Numbered(g, k)
    requires h.tree == g.tree[d := n] && Grows(g, h)
    requires h.seqOf == g.seqOf || (h.seqOf == g.seqOf[n.gnid := d] && d >= 2)
    ensures forall k {:trigger Numbered(h, k)} :: k in h.seqOf ==> Numbered(h, k)
  {
    forall k | k in h.seqOf
      ensures Numbered(h, k)
    {
      assert k in g.seqOf ==> Numbered(g, k);
    }
  }

  // ----------------------------------------------------- gathering one slice

  ghost function Value(g: Global, d: nat, e: Entry): int {
    if d in g.tree then EntryOf(g.tree[d].vals, e) else 0
  }

  ghost function SliceValue(cfg: Config, t: SliceTree, d: nat, e: Entry): int {
    EntryOf(NodeOr(cfg, t, d), e)
  }

  /** The nodes of `done` that have global id `gnid`. */
  ghost function Sharing(src: Tree, done: set<NodeId>, gnid: nat): set<NodeId> {
    set x | x in done && x in src && src[x].gnid == gnid
  }

  ghost function EntryCol(slice: SliceTree, e: Entry): map<NodeId, int> {
    map x | x in slice :: EntryOf(slice[x], e)
  }

  /** What the nodes of `done` hold together for global id `gnid`. */
  ghost function Share(src: Tree, slice: SliceTree, done: set<NodeId>, gnid: nat, e: Entry): int {
    Sum(Sharing(src, done, gnid), EntryCol(slice, e))
  }

  ghost function Gained(cfg: Config, src: Tree, slice: SliceTree, done: set<NodeId>, gnid: nat, e: Entry): int {
    if Gathers(cfg, e) then Share(src, slice, done, gnid, e) else 0
  }

  lemma ShareStep(cfg: Config, src: Tree, slice: SliceTree, done: set<NodeId>, x: NodeId, gnid: nat, e: Entry)
    requires x !in done && x in src && x in slice
    ensures Gained(cfg, src, slice, done + {x}, gnid, e)
         == Gained(cfg, src, slice, done, gnid, e)
            + if src[x].gnid == gnid && Gathers(cfg, e) then EntryOf(slice[x], e) else 0
  {
    var a, b := Sharing(src, done, gnid), Sharing(src, done + {x}, gnid);
    if src[x].gnid == gnid {
      SumPull(b, EntryCol(slice, e), x);
      assert b - {x} == a;
    } else {
      assert a == b;
    }
  }

  /** Every node of `h` holds what it held in `g` and its share of `done`, in
      the tree and in the interval's slice alike. */
  ghost predicate Adds(
    cfg: Config, g: Global, t: SliceTree, h: Global, u: SliceTree,
    src: Tree, slice: SliceTree, done: set<NodeId>)
  {
    forall d, e {:trigger AddsAt(cfg, g, t, h, u, src, slice, done, d, e)} :: d in h.tree ==>
      AddsAt(cfg, g, t, h, u, src, slice, done, d, e)
  }

  ghost predicate AddsAt(
    cfg: Config, g: Global, t: SliceTree, h: Global, u: SliceTree,
    src: Tree, slice: SliceTree, done: set<NodeId>, d: nat, e: Entry)
    requires d in h.tree
  {
    var gained := Gained(cfg, src, slice, done, h.tree[d].gnid, e);
    && Value(h, d, e) == Value(g, d, e) + gained
    && SliceValue(cfg, u, d, e) == SliceValue(cfg, t, d, e) + gained
  }

  /** There is a node for each of `done`, and no other new ones. */
  ghost predicate Meets(g: Global, t: SliceTree, h: Global, u: SliceTree, src: Tree, done: set<NodeId>) {
    && t.Keys <= u.Keys <= h.tree.Keys
    && (forall x {:trigger Met(h, u, src, x)} :: x in done && x in src ==> Met(h, u, src, x))
    && (forall d {:trigger FromDone(h, src, done, d)} :: d in h.tree ==>
         FromDone(h, src, done, d) || (d in g.tree && (d in u ==> d in t)))
  }

  ghost predicate FromDone(h: Global, src: Tree, done: set<NodeId>, d: nat)
    requires d in h.tree
  {
    Sharing(src, done, h.tree[d].gnid) != {}
  }

  /** `g` and its slice `t` have become `h` and `u` by gathering the nodes `done`. */
  ghost predicate Absorbed(
    cfg: Config, g: Global, t: SliceTree, h: Global, u: SliceTree,
    src: Tree, slice: SliceTree, done: set<NodeId>)
  {
    && GlobalOk(cfg, h) && Grows(g, h) && SliceWidths(cfg, u)
    && Adds(cfg, g, t, h, u, src, slice, done)
    && Meets(g, t, h, u, src, done)
  }

  /** There is a node for `x`, in the tree and in the slice. */
  ghost predicate Met(h: Global, u: SliceTree, src: Tree, x: NodeId)
    requires x in src
  {
    var d := SeqFor(h, src[x].gnid);
    Known(h, src[x].gnid) && d in h.tree && h.tree[d].gnid == src[x].gnid && d in u
  }

  lemma AbsorbedNothing(cfg: Config, g: Global, t: SliceTree, src: Tree, slice: SliceTree)
    requires GlobalOk(cfg, g) && SliceWidths(cfg, t) && t.Keys <= g.tree.Keys
    ensures Absorbed(cfg, g, t, g, t, src, slice, {})
  {
    forall d, e | d in g.tree
      ensures AddsAt(cfg, g, t, g, t, src, slice, {}, d, e)
    {
      assert Sharing(src, {}, g.tree[d].gnid) == {};
    }
  }

  lemma TakeNodeValue(
    cfg: Config, g: Global, t: SliceTree, from: Config, src: Tree, x: NodeId, s: SliceNode, d: nat, e: Entry)
    requires GlobalOk(cfg, g) && from.hash == cfg.hash
    requires Takeable(g, from, src, x) && NodeWidths(cfg, s) && SliceWidths(cfg, t)
    requires d in TakeNode(cfg, g, from, src, x, s).tree
    ensures var h := TakeNode(cfg, g, from, src, x, s);
      var u := TakeSlice(cfg, t, SeqFor(g, src[x].gnid), s);
      var inc := if src[x].gnid == h.tree[d].gnid && Gathers(cfg, e) then EntryOf(s, e) else 0;
      && Value(h, d, e) == Value(g, d, e) + inc
      && SliceValue(cfg, u, d, e) == SliceValue(cfg, t, d, e) + inc
  {
    var h, c := TakeNode(cfg, g, from, src, x, s), SeqFor(g, src[x].gnid);
    TakeNodeOk(cfg, g, from, src, x, s);
    OneNodePerGnid(cfg, h, c, d);
    if c == d {
      AddOnEntry(cfg, DestNode(cfg, g, from, src, x).vals, s, e);
      AddOnEntry(cfg, NodeOr(cfg, t, d), s, e);
    }
  }

  /** What has not been met has no share yet. */
  lemma NewcomerShare(
    cfg: Config, g: Global, t: SliceTree, h: Global, u: SliceTree,
    src: Tree, slice: SliceTree, done: set<NodeId>, gnid: nat)
    requires Absorbed(cfg, g, t, h, u, src, slice, done)
    requires forall d :: d in h.tree ==> h.tree[d].gnid != gnid
    ensures Sharing(src, done, gnid) == {}
    ensures forall e :: Gained(cfg, src, slice, done, gnid, e) == 0
  {
    forall x | x in done && x in src
      ensures src[x].gnid != gnid
    {
      assert Met(h, u, src, x);
    }
  }

  lemma AddsStep(
    cfg: Config, g: Global, t: SliceTree, h: Global, u: SliceTree, h': Global, u': SliceTree,
    src: Tree, slice: SliceTree, done: set<NodeId>, x: NodeId, d: nat, e: Entry)
    requires x !in done && x in src && x in slice && d in h'.tree
    requires d in h.tree ==> h'.tree[d].gnid == h.tree[d].gnid && AddsAt(cfg, g, t, h, u, src, slice, done, d, e)
    requires d !in h.tree ==>
      d !in g.tree && d !in t && d !in u && Gained(cfg, src, slice, done, h'.tree[d].gnid, e) == 0
    requires
      var inc := if src[x].gnid == h'.tree[d].gnid && Gathers(cfg, e) then EntryOf(slice[x], e) else 0;
      && Value(h', d, e) == Value(h, d, e) + inc
      && SliceValue(cfg, u', d, e) == SliceValue(cfg, u, d, e) + inc
    ensures AddsAt(cfg, g, t, h', u', src, slice, done + {x}, d, e)
  {
    ShareStep(cfg, src, slice, done, x, h'.tree[d].gnid, e);
  }

  lemma AbsorbStepAt(
    cfg: Config, g: Global, t: SliceTree, h: Global, u: SliceTree,
    from: Config, src: Tree, slice: SliceTree, done: set<NodeId>, x: NodeId, d: nat, e: Entry)
    requires GlobalOk(cfg, g) && from.hash == cfg.hash && t.Keys <= g.tree.Keys
    requires Absorbed(cfg, g, t, h, u, src, slice, done)
    requires x !in done && x in slice && Takeable(h, from, src, x) && SliceWidths(cfg, slice)
    requires d in TakeNode(cfg, h, from, src, x, slice[x]).tree
    ensures AddsAt(cfg, g, t, TakeNode(cfg, h, from, src, x, slice[x]),
                   TakeSlice(cfg, u, SeqFor(h, src[x].gnid), slice[x]), src, slice, done + {x}, d, e)
  {
    var s, c := slice[x], SeqFor(h, src[x].gnid);
    var h', u' := TakeNode(cfg, h, from, src, x, s), TakeSlice(cfg, u, c, s);
    TakeNodeOk(cfg, h, from, src, x, s);
    TakeNodeValue(cfg, h, u, from, src, x, s, d, e);
    if d in h.tree {
      assert AddsAt(cfg, g, t, h, u, src, slice, done, d, e);
    } else {
      NewcomerGain(cfg, g, t, h, u, h', src, slice, done, d, e);
    }
    AddsStep(cfg, g, t, h, u, h', u', src, slice, done, x, d, e);
  }

  lemma NewcomerGain(
    cfg: Config, g: Global, t: SliceTree, h: Global, u: SliceTree, h': Global,
    src: Tree, slice: SliceTree, done: set<NodeId>, d: nat, e: Entry)
    requires Absorbed(cfg, g, t, h, u, src, slice, done)
    requires GlobalOk(cfg, h') && Grows(h, h') && d in h'.tree && d !in h.tree
    ensures Gained(cfg, src, slice, done, h'.tree[d].gnid, e) == 0
  {
    forall c | c in h.tree
      ensures h.tree[c].gnid != h'.tree[d].gnid
    {
      OneNodePerGnid(cfg, h', c, d);
    }
    NewcomerShare(cfg, g, t, h, u, src, slice, done, h'.tree[d].gnid);
  }

  /** One more node. */
  lemma AbsorbStep(
    cfg: Config, g: Global, t: SliceTree, h: Global, u: SliceTree,
    from: Config, src: Tree, slice: SliceTree, done: set<NodeId>, x: NodeId)
    requires GlobalOk(cfg, g) && from.hash == cfg.hash && t.Keys <= g.tree.Keys
    requires Absorbed(cfg, g, t, h, u, src, slice, done)
    requires x !in done && x in slice && Takeable(h, from, src, x) && SliceWidths(cfg, slice)
    ensures Absorbed(cfg, g, t, TakeNode(cfg, h, from, src, x, slice[x]),
                     TakeSlice(cfg, u, SeqFor(h, src[x].gnid), slice[x]), src, slice, done + {x})
  {
    var s, c := slice[x], SeqFor(h, src[x].gnid);
    var h', u' := TakeNode(cfg, h, from, src, x, s), TakeSlice(cfg, u, c, s);
    TakeNodeOk(cfg, h, from, src, x, s);
    forall d, e | d in h'.tree
      ensures AddsAt(cfg, g, t, h', u', src, slice, done + {x}, d, e)
    {
      AbsorbStepAt(cfg, g, t, h, u, from, src, slice, done, x, d, e);
    }
    MeetStep(g, t, h, u, h', u', src, done, x, c);
  }

  lemma MeetStep(
    g: Global, t: SliceTree, h: Global, u: SliceTree, h': Global, u': SliceTree,
    src: Tree, done: set<NodeId>, x: NodeId, c: nat)
    requires Meets(g, t, h, u, src, done) && Grows(g, h) && Grows(h, h') && x in src
    requires h'.tree.Keys == h.tree.Keys + {c} && u'.Keys == u.Keys + {c}
    requires c in h'.tree && h'.tree[c].gnid == src[x].gnid
    requires Known(h', src[x].gnid) && SeqFor(h', src[x].gnid) == c
    ensures Meets(g, t, h', u', src, done + {x})
  {
    forall y | y in done + {x} && y in src
      ensures Met(h', u', src, y)
    {
      assert y in done ==> Met(h, u, src, y);
    }
    forall d | d in h'.tree
      ensures FromDone(h', src, done + {x}, d) || (d in g.tree && (d in u' ==> d in t))
    {
      if d == c {
        assert x in Sharing(src, done + {x}, src[x].gnid);
      } else {
        assert FromDone(h, src, done, d) || (d in g.tree && (d in u ==> d in t));
        assert Sharing(src, done, h.tree[d].gnid) <= Sharing(src, done + {x}, h.tree[d].gnid);
      }
    }
  }

  // ---------------------------------------------- gathering several slices

  /** A source's tree and the slice taken from it. */
  datatype Part = Part(tree: Tree, slice: SliceTree)

  ghost function PartGain(cfg: Config, p: Part, gnid: nat, e: Entry): int {
    Gained(cfg, p.tree, p.slice, p.slice.Keys, gnid, e)
  }

  /** What several parts hold together for one global id. */
  ghost function PartsGain(cfg: Config, parts: seq<Part>, gnid: nat, e: Entry): int {
    if parts == [] then 0
    else PartsGain(cfg, parts[..|parts| - 1], gnid, e) + PartGain(cfg, parts[|parts| - 1], gnid, e)
  }

  ghost predicate Appears(p: Part, gnid: nat) {
    Sharing(p.tree, p.slice.Keys, gnid) != {}
  }

  ghost predicate AppearsIn(parts: seq<Part>, gnid: nat) {
    parts != [] && (AppearsIn(parts[..|parts| - 1], gnid) || Appears(parts[|parts| - 1], gnid))
  }

  lemma {:induction false} AbsentGain(cfg: Config, parts: seq<Part>, gnid: nat, e: Entry)
    requires !AppearsIn(parts, gnid)
    ensures PartsGain(cfg, parts, gnid, e) == 0
  {
    if parts != [] {
      AbsentGain(cfg, parts[..|parts| - 1], gnid, e);
    }
  }

  ghost predicate GainsAt(
    cfg: Config, g: Global, t: SliceTree, h: Global, u: SliceTree, parts: seq<Part>, d: nat, e: Entry)
    requires d in h.tree
  {
    var gain := PartsGain(cfg, parts, h.tree[d].gnid, e);
    && Value(h, d, e) == Value(g, d, e) + gain
    && SliceValue(cfg, u, d, e) == SliceValue(cfg, t, d, e) + gain
  }

  ghost predicate HasNode(h: Global, u: SliceTree, gnid: nat) {
    var d := SeqFor(h, gnid);
    Known(h, gnid) && d in h.tree && h.tree[d].gnid == gnid && d in u
  }

  /** `g` and its slice `t` have become `h` and `u` by gathering all of `parts`:
      every node gains exactly what the parts hold for it, and there is a node
      for every global id in the parts and no other new one. */
  ghost predicate Gathered(cfg: Config, g: Global, t: SliceTree, h: Global, u: SliceTree, parts: seq<Part>) {
    && GlobalOk(cfg, h) && Grows(g, h) && SliceWidths(cfg, u)
    && t.Keys <= u.Keys <= h.tree.Keys
    && (forall d, e {:trigger GainsAt(cfg, g, t, h, u, parts, d, e)} :: d in h.tree ==>
         GainsAt(cfg, g, t, h, u, parts, d, e))
    && (forall gnid {:trigger HasNode(h, u, gnid)} :: AppearsIn(parts, gnid) ==> HasNode(h, u, gnid))
    && (forall d {:trigger AppearsIn(parts, h.tree[d].gnid)} :: d in h.tree ==>
         AppearsIn(parts, h.tree[d].gnid) || (d in g.tree && (d in u ==> d in t)))
  }

  lemma GatheredNothing(cfg: Config, g: Global, t: SliceTree)
    requires GlobalOk(cfg, g) && SliceWidths(cfg, t) && t.Keys <= g.tree.Keys
    ensures Gathered(cfg, g, t, g, t, [])
  {
  }

  lemma GatheredStep(
    cfg: Config, g: Global, t: SliceTree, h: Global, u: SliceTree, h': Global, u': SliceTree,
    parts: seq<Part>, p: Part)
    requires Gathered(cfg, g, t, h, u, parts)
    requires Absorbed(cfg, h, u, h', u', p.tree, p.slice, p.slice.Keys)
    ensures Gathered(cfg, g, t, h', u', parts + [p])
  {
    var more := parts + [p];
    assert more[..|more| - 1] == parts;
    forall d, e | d in h'.tree
      ensures GainsAt(cfg, g, t, h', u', more, d, e)
    {
      GainsStep(cfg, g, t, h, u, h', u', parts, more, p, d, e);
    }
    forall gnid | AppearsIn(more, gnid)
      ensures HasNode(h', u', gnid)
    {
      if AppearsIn(parts, gnid) {
        assert HasNode(h, u, gnid);
      } else {
        var x :| x in Sharing(p.tree, p.slice.Keys, gnid);
        assert Met(h', u', p.tree, x);
      }
    }
    forall d | d in h'.tree
      ensures AppearsIn(more, h'.tree[d].gnid) || (d in g.tree && (d in u' ==> d in t))
    {
      assert FromDone(h', p.tree, p.slice.Keys, d) || (d in h.tree && (d in u' ==> d in u));
      if d in h.tree {
        assert AppearsIn(parts, h.tree[d].gnid) || (d in g.tree && (d in u ==> d in t));
      }
    }
  }

  lemma GainsStep(
    cfg: Config, g: Global, t: SliceTree, h: Global, u: SliceTree, h': Global, u': SliceTree,
    parts: seq<Part>, more: seq<Part>, p: Part, d: nat, e: Entry)
    requires Gathered(cfg, g, t, h, u, parts)
    requires Absorbed(cfg, h, u, h', u', p.tree, p.slice, p.slice.Keys)
    requires more != [] && more[..|more| - 1] == parts && more[|more| - 1] == p && d in h'.tree
    ensures GainsAt(cfg, g, t, h', u', more, d, e)
  {
    assert AddsAt(cfg, h, u, h', u', p.tree, p.slice, p.slice.Keys, d, e);
    var gnid := h'.tree[d].gnid;
    if d in h.tree {
      assert GainsAt(cfg, g, t, h, u, parts, d, e);
    } else {
      if AppearsIn(parts, gnid) {
        assert HasNode(h, u, gnid);
        OneNodePerGnid(cfg, h', SeqFor(h, gnid), d);
        assert false;
      }
      AbsentGain(cfg, parts, gnid, e);
    }
  }
}
