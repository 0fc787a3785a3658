/** The store that gathers all others, updated in place. */
module GlobalStores {
  import opened Wire
  import opened Sums
  import opened Forest
  import opened Ordering
  import opened StoreModel
  import opened TimeSlices
  import opened PathIds
  import opened GlobalModel
  import ThreadStores

  /** `now` is `a` with the first `n` columns of `b` added. */
  ghost predicate AddedUpTo(cfg: Config, a: seq<int>, b: seq<int>, now: seq<int>, n: nat)
    requires |a| == |b| == |cfg.meta|
  {
    && |now| == |a|
    && (forall j :: 0 <= j < |now| && j < n ==> now[j] == AddStep(cfg, a, b)[j])
    && (forall j :: n <= j < |now| ==> now[j] == a[j])
  }

  /** A slice with nodes of the tree only, closed under parents. */
  ghost predicate Gatherable(cfg: Config, from: Config, src: Tree, slice: SliceTree) {
    && WellFormed(Par(src)) && GnidsOk(from, src) && from.hash == cfg.hash && Unreserved(src)
    && SliceWidths(cfg, slice) && slice.Keys <= src.Keys && UpClosed(Par(src), slice.Keys)
  }

  /** What a store's current slice holds, nothing if there is none yet. */
  ghost function CurrentSlice(slices: seq<Slice>, start: int, clock: int): SliceTree {
    if slices != [] && 0 <= clock - start < |slices| then slices[clock - start].tree else map[]
  }

  ghost function PartOf(s: ThreadStores.ThreadStore, clock: int): Part
    reads s
  {
    Part(s.current, CurrentSlice(s.slices, s.startTime, clock))
  }

  /** A store whose clock has not gone back. */
  ghost predicate Ready(cfg: Config, s: ThreadStores.ThreadStore, clock: int)
    reads s
  {
    && (s.slices == [] || clock >= s.startTime)
    && Gatherable(cfg, s.cfg, s.current, PartOf(s, clock).slice)
  }

  ghost function Parts(stores: seq<ThreadStores.ThreadStore>, clocks: seq<int>): (parts: seq<Part>)
    requires |clocks| == |stores|
    reads stores
    ensures |parts| == |stores|
    ensures forall k :: 0 <= k < |parts| ==> parts[k] == PartOf(stores[k], clocks[k])
  {
    seq(|stores|, k requires 0 <= k < |stores| reads stores => PartOf(stores[k], clocks[k]))
  }

  class GlobalStore {
    const cfg: Config
    var tree: map<nat, GlobalNode>
    var seqOf: map<nat, nat>
    var seqNum: nat
    var slices: seq<Slice>
    var startTime: int
    var time: int

    ghost function G(): Global
      reads this
    {
      Global(tree, seqOf, seqNum)
    }

    constructor (cfg: Config)
      ensures this.cfg == cfg && G() == FirstGlobal(cfg) && GlobalOk(cfg, G())
      ensures slices == [] && time == 0
    {
      this.cfg := cfg;
      tree := map[1 := GlobalNode(0, 1, "", ZeroNode(cfg))];
      seqOf, seqNum, slices, startTime, time := map[], 1, [], 0, 0;
      FirstGlobalOk(cfg);
    }

    method GnidToSeq(gnid: nat) returns (d: nat)
      modifies this`seqOf, this`seqNum
      ensures d == SeqFor(old(G()), gnid)
      ensures G() == WithSeq(old(G()), gnid)
    {
      if gnid < 2 {
        return gnid;
      }
      if gnid !in seqOf {
        seqNum := seqNum + 1;
        seqOf := seqOf[gnid := seqNum];
        return seqNum;
      }
      return seqOf[gnid];
    }

    /** The index of the slice for the current time. */
    method GetCurrentTimeSlice() returns (k: nat)
      requires slices == [] || time >= startTime
      modifies this`slices, this`startTime
      ensures startTime == if old(slices) == [] then time else old(startTime)
      ensures k == time - startTime && k < |slices|
      ensures slices == Padded(old(slices), k + 1)
    {
      if slices == [] {
        startTime := time;
      }
      if time - startTime >= |slices| {
        slices := slices + seq(time - startTime + 1 - |slices|, _ => EMPTY_SLICE);
      }
      k := time - startTime;
    }

    /** The node that node `x` of a source is gathered into, created if missing. */
    method FindOrAdd(from: Config, src: Tree, x: NodeId) returns (d: nat)
      requires GlobalOk(cfg, G()) && from.hash == cfg.hash
      requires Takeable(G(), from, src, x)
      modifies this`tree, this`seqOf, this`seqNum
      ensures d == SeqFor(old(G()), src[x].gnid)
      ensures G() == WithSeq(old(G()), src[x].gnid).(
                tree := old(tree)[d := DestNode(cfg, old(G()), from, src, x)])
    {
      ghost var g := G();
      DestOk(cfg, g, from, src, x);
      d := GnidToSeq(src[x].gnid);
      if d !in tree {
        var parent := 0;
        if src[x].parent in src {
          parent := GnidToSeq(src[src[x].parent].gnid);
        }
        tree := tree[d := GlobalNode(parent, src[x].gnid, from.nameOf(src[x].name), ZeroNode(cfg))];
      }
      assert tree == g.tree[d := DestNode(cfg, g, from, src, x)];
    }

    /** Adds the values of one source node to the tree and to the slice. */
    method AddValues(d: nat, s: SliceNode, slot: nat)
      requires d in tree && NodeWidths(cfg, tree[d].vals) && NodeWidths(cfg, s)
      requires slot < |slices| && SliceWidths(cfg, slices[slot].tree)
      modifies this`tree, this`slices
      ensures tree == old(tree)[d := old(tree)[d].(vals := AddOn(cfg, old(tree)[d].vals, s))]
      ensures ThreadStores.SliceHolds(slices, old(slices), slot, TakeSlice(cfg, old(slices)[slot].tree, d, s))
    {
      var slice, node := slices[slot], tree[d];
      var dest, vals := if d in slice.tree then slice.tree[d] else ZeroNode(cfg), node.vals;
      var destAll, destCld, all, cld := dest.all, dest.cld, vals.all, vals.cld;
      for i := 0 to |cfg.meta|
        invariant AddedUpTo(cfg, dest.all, s.all, destAll, i) && AddedUpTo(cfg, dest.cld, s.cld, destCld, i)
        invariant AddedUpTo(cfg, vals.all, s.all, all, i) && AddedUpTo(cfg, vals.cld, s.cld, cld, i)
      {
        if !cfg.meta[i].isStatic {
          destAll := destAll[i := destAll[i] + s.all[i]];
          destCld := destCld[i := destCld[i] + s.cld[i]];
          all := all[i := all[i] + s.all[i]];
          cld := cld[i := cld[i] + s.cld[i]];
        }
      }
      assert destAll == AddStep(cfg, dest.all, s.all) && destCld == AddStep(cfg, dest.cld, s.cld);
      assert all == AddStep(cfg, vals.all, s.all) && cld == AddStep(cfg, vals.cld, s.cld);
      tree := tree[d := node.(vals := SliceNode(all, cld, vals.callCount + s.callCount))];
      slices := slices[slot := slice.(tree :=
        slice.tree[d := SliceNode(destAll, destCld, dest.callCount + s.callCount)])];
    }

    method IntegrateNode(from: Config, src: Tree, x: NodeId, s: SliceNode, slot: nat)
      requires GlobalOk(cfg, G()) && from.hash == cfg.hash
      requires Takeable(G(), from, src, x) && NodeWidths(cfg, s)
      requires slot < |slices| && SliceWidths(cfg, slices[slot].tree)
      modifies this`tree, this`seqOf, this`seqNum, this`slices
      ensures G() == TakeNode(cfg, old(G()), from, src, x, s)
      ensures ThreadStores.SliceHolds(slices, old(slices), slot,
                TakeSlice(cfg, old(slices)[slot].tree, SeqFor(old(G()), src[x].gnid), s))
    {
      ghost var g := G();
      DestOk(cfg, g, from, src, x);
      var d := FindOrAdd(from, src, x);
      AddValues(d, s, slot);
      assert G().tree == TakeNode(cfg, g, from, src, x, s).tree;
    }

    /** The same, as one step of gathering the whole slice. */
    method AbsorbNode(
      from: Config, src: Tree, slice: SliceTree, slot: nat, x: NodeId,
      ghost g: Global, ghost t: SliceTree, ghost done: set<NodeId>)
      requires GlobalOk(cfg, g) && from.hash == cfg.hash && t.Keys <= g.tree.Keys
      requires slot < |slices| && Absorbed(cfg, g, t, G(), slices[slot].tree, src, slice, done)
      requires x !in done && x in slice && Takeable(G(), from, src, x) && SliceWidths(cfg, slice)
      modifies this`tree, this`seqOf, this`seqNum, this`slices
      ensures slot < |slices| && ThreadStores.SliceHolds(slices, old(slices), slot, slices[slot].tree)
      ensures Absorbed(cfg, g, t, G(), slices[slot].tree, src, slice, done + {x})
    {
      AbsorbStep(cfg, g, t, G(), slices[slot].tree, from, src, slice, done, x);
      IntegrateNode(from, src, x, slice[x], slot);
    }

    /** Gathers a source's slice, in ascending order of node ids. */
    method IntegrateSlice(from: Config, src: Tree, slice: SliceTree, slot: nat)
      requires GlobalOk(cfg, G()) && Gatherable(cfg, from, src, slice)
      requires slot < |slices| && SliceWidths(cfg, slices[slot].tree) && slices[slot].tree.Keys <= tree.Keys
      modifies this`tree, this`seqOf, this`seqNum, this`slices
      ensures |slices| == |old(slices)|
      ensures ThreadStores.SliceHolds(slices, old(slices), slot, slices[slot].tree)
      ensures Absorbed(cfg, old(G()), old(slices)[slot].tree, G(), slices[slot].tree, src, slice, slice.Keys)
    {
      ghost var g, t := G(), slices[slot].tree;
      var rest := slice.Keys;
      AbsorbedNothing(cfg, g, t, src, slice);
      assert slice.Keys - rest == {};
      while rest != {}
        invariant rest <= slice.Keys
        invariant slot < |slices| && ThreadStores.SliceHolds(slices, old(slices), slot, slices[slot].tree)
        invariant Absorbed(cfg, g, t, G(), slices[slot].tree, src, slice, slice.Keys - rest)
        decreases rest
      {
        var x := First(rest);
        ghost var done := slice.Keys - rest;
        NextTakeable(cfg, g, t, G(), slices[slot].tree, from, src, slice, rest, x);
        AbsorbNode(from, src, slice, slot, x, g, t, done);
        rest := rest - {x};
        assert slice.Keys - rest == done + {x};
      }
      assert slice.Keys - rest == slice.Keys;
    }

    /** Gathers the current slice of one store, and removes all its slices. */
    method IntegrateStore(s: ThreadStores.ThreadStore, clock: int, slot: nat)
      requires GlobalOk(cfg, G()) && Ready(cfg, s, clock)
      requires slot < |slices| && SliceWidths(cfg, slices[slot].tree) && slices[slot].tree.Keys <= tree.Keys
      modifies this`tree, this`seqOf, this`seqNum, this`slices, s`slices, s`startTime
      ensures s.slices == []
      ensures |slices| == |old(slices)|
      ensures ThreadStores.SliceHolds(slices, old(slices), slot, slices[slot].tree)
      ensures var p := old(PartOf(s, clock));
        Absorbed(cfg, old(G()), old(slices)[slot].tree, G(), slices[slot].tree, p.tree, p.slice, p.slice.Keys)
    {
      ghost var p := PartOf(s, clock);
      var k := s.GetTimeSlice(clock);
      var slice := s.slices[k].tree;
      assert slice == p.slice;
      IntegrateSlice(s.cfg, s.current, slice, slot);
      s.RemoveTimeSlice();
    }

    /** Gathers the current slices of all stores, in their order. */
    method IntegrateAll(stores: seq<ThreadStores.ThreadStore>, clocks: seq<int>, slot: nat)
      requires |clocks| == |stores| && forall j, k :: 0 <= j < k < |stores| ==> stores[j] != stores[k]
      requires GlobalOk(cfg, G())
      requires forall k :: 0 <= k < |stores| ==> Ready(cfg, stores[k], clocks[k])
      requires slot < |slices| && slices[slot].tree == map[]
      modifies this`tree, this`seqOf, this`seqNum, this`slices
      modifies (set s | s in stores)`slices, (set s | s in stores)`startTime
      ensures forall k :: 0 <= k < |stores| ==> stores[k].slices == []
      ensures |slices| == |old(slices)|
      ensures ThreadStores.SliceHolds(slices, old(slices), slot, slices[slot].tree)
      ensures Gathered(cfg, old(G()), map[], G(), slices[slot].tree, old(Parts(stores, clocks)))
    {
      ghost var g, parts := G(), Parts(stores, clocks);
      GatheredNothing(cfg, g, map[]);
      assert parts[..0] == [];
      var j := 0;
      while j < |stores|
        invariant 0 <= j <= |stores|
        invariant forall k :: 0 <= k < j ==> stores[k].slices == []
        invariant forall k :: j <= k < |stores| ==> unchanged(stores[k])
        invariant slot < |slices| && ThreadStores.SliceHolds(slices, old(slices), slot, slices[slot].tree)
        invariant Gathered(cfg, g, map[], G(), slices[slot].tree, parts[..j])
      {
        TakeOneMore(parts, j);
        IntegrateNext(stores[j], clocks[j], slot, g, parts[..j], parts[..j + 1]);
        j := j + 1;
      }
      assert parts[..j] == parts;
    }

    method IntegrateNext(
      s: ThreadStores.ThreadStore, clock: int, slot: nat,
      ghost g: Global, ghost parts: seq<Part>, ghost more: seq<Part>)
      requires Ready(cfg, s, clock)
      requires slot < |slices| && Gathered(cfg, g, map[], G(), slices[slot].tree, parts)
      requires more == parts + [PartOf(s, clock)]
      modifies this`tree, this`seqOf, this`seqNum, this`slices, s`slices, s`startTime
      ensures s.slices == []
      ensures slot < |slices| && ThreadStores.SliceHolds(slices, old(slices), slot, slices[slot].tree)
      ensures Gathered(cfg, g, map[], G(), slices[slot].tree, more)
    {
      ghost var h, u, p := G(), slices[slot].tree, PartOf(s, clock);
      IntegrateStore(s, clock, slot);
      GatheredStep(cfg, g, map[], h, u, G(), slices[slot].tree, parts, p);
    }

    /** Gathers every store's current slice into the slice for the next moment. */
    method Integrate(stores: seq<ThreadStores.ThreadStore>, clocks: seq<int>)
      requires |clocks| == |stores| && forall j, k :: 0 <= j < k < |stores| ==> stores[j] != stores[k]
      requires GlobalOk(cfg, G())
      requires slices == [] || (time >= startTime && EmptyFrom(slices, time + 1 - startTime))
      requires forall k :: 0 <= k < |stores| ==> Ready(cfg, stores[k], clocks[k])
      modifies this`tree, this`seqOf, this`seqNum, this`slices, this`startTime, this`time
      modifies (set s | s in stores)`slices, (set s | s in stores)`startTime
      ensures time == old(time) + 1
      ensures startTime == if old(slices) == [] then time else old(startTime)
      ensures time >= startTime
      ensures forall k :: 0 <= k < |stores| ==> stores[k].slices == []
      ensures var slot := time - startTime;
        && slot < |slices|
        && ThreadStores.SliceHolds(slices, Padded(old(slices), slot + 1), slot, slices[slot].tree)
        && Gathered(cfg, old(G()), map[], G(), slices[slot].tree, old(Parts(stores, clocks)))
    {
      time := time + 1;
      var slot := GetCurrentTimeSlice();
      assert slices[slot].tree == map[];
      IntegrateAll(stores, clocks, slot);
    }
  }

  lemma TakeOneMore<T>(s: seq<T>, j: nat)
    requires j < |s|
    ensures s[..j + 1] == s[..j] + [s[j]]
  {
  }

  lemma NextTakeable(
    cfg: Config, g: Global, t: SliceTree, h: Global, u: SliceTree,
    from: Config, src: Tree, slice: SliceTree, rest: set<NodeId>, x: NodeId)
    requires Gatherable(cfg, from, src, slice)
    requires Absorbed(cfg, g, t, h, u, src, slice, slice.Keys - rest)
    requires rest <= slice.Keys && x in rest && forall y :: y in rest ==> x <= y
    ensures Takeable(h, from, src, x) && NodeWidths(cfg, slice[x])
  {
    assert Hangs(Par(src), x) && ClosedAt(Par(src), slice.Keys, x) && GnidOk(from, src, x);
    if x != ROOT {
      var up := src[x].parent;
      assert up in slice.Keys - rest;
      assert Met(h, u, src, up);
    }
  }
}
