/** What the gathering store sends: its own windows and its current tree. */
module GlobalWindows {
  import opened Wire
  import opened Forest
  import opened StoreModel
  import opened TimeSlices
  import opened Representations
  import opened PathIds
  import opened GlobalModel
  import opened GlobalStores
  import opened GlobalRuns
  import opened Viewer
  import opened ViewerSync

  ghost function GlobalPar(g: Global): Parents {
    map d | d in g.tree :: g.tree[d].parent
  }

  lemma GlobalParWellFormed(cfg: Config, g: Global)
    requires GlobalOk(cfg, g)
    ensures WellFormed(GlobalPar(g))
  {
    assert 1 in g.tree && Placed(cfg.hash, g, 1);
    forall d | d in GlobalPar(g)
      ensures Hangs(GlobalPar(g), d)
    {
      assert Placed(cfg.hash, g, d);
    }
  }

  // --------------------------------------------------------- closed slices

  /** The string hashed for a node of a source, or of the gathering tree. */
  ghost function SourceKey(from: Config, src: Tree, x: NodeId): string
    requires x in src && src[x].parent in src
  {
    PathKey(src[src[x].parent].gnid, from.nameOf(src[x].name))
  }

  ghost function GlobalKey(g: Global, d: nat): string
    requires d in g.tree && g.tree[d].parent in g.tree
  {
    PathKey(g.tree[g.tree[d].parent].gnid, g.tree[d].name)
  }

  /** All strings hashed for the nodes there are, are among `keys`. */
  ghost predicate KeysKnown(s: System, keys: set<string>) {
    && (forall k, x {:trigger SourceKey(s.sources[k].cfg, s.sources[k].state.tree, x)} ::
          0 <= k < |s.sources| && x in s.sources[k].state.tree && s.sources[k].state.tree[x].parent in s.sources[k].state.tree
          ==> SourceKey(s.sources[k].cfg, s.sources[k].state.tree, x) in keys)
    && (forall d {:trigger GlobalKey(s.g, d)} ::
          d in s.g.tree && s.g.tree[d].parent in s.g.tree ==> GlobalKey(s.g, d) in keys)
  }

  lemma {:induction false} AppearsAt(parts: seq<Part>, gnid: nat) returns (k: nat)
    requires AppearsIn(parts, gnid)
    ensures k < |parts| && Appears(parts[k], gnid)
  {
    if Appears(parts[|parts| - 1], gnid) {
      k := |parts| - 1;
    } else {
      k := AppearsAt(parts[..|parts| - 1], gnid);
    }
  }

  lemma {:induction false} AppearsFrom(parts: seq<Part>, k: nat, gnid: nat)
    requires k < |parts| && Appears(parts[k], gnid)
    ensures AppearsIn(parts, gnid)
  {
    if k < |parts| - 1 {
      AppearsFrom(parts[..|parts| - 1], k, gnid);
    }
  }

  /** A node of a source that is gathered brings its parent's node along. */
  lemma BringsParent(
    cfg: Config, h: Global, d: nat, from: Config, src: Tree, slice: SliceTree, x: NodeId, keys: set<string>)
    requires GlobalOk(cfg, h) && d in h.tree && d != 1
    requires Gatherable(cfg, from, src, slice) && x in slice && src[x].gnid == h.tree[d].gnid
    requires CollisionFreeOn(cfg.hash, keys)
    requires h.tree[d].parent in h.tree ==> GlobalKey(h, d) in keys
    requires src[x].parent in src ==> SourceKey(from, src, x) in keys
    ensures h.tree[d].parent in h.tree
    ensures src[x].parent in slice && src[src[x].parent].gnid == h.tree[h.tree[d].parent].gnid
  {
    assert Placed(cfg.hash, h, d);
    assert Hangs(Par(src), x) && GnidOk(from, src, x) && ClosedAt(Par(src), slice.Keys, x);
    var up, top := src[x].parent, h.tree[d].parent;
    PathKeyInjective(src[up].gnid, from.nameOf(src[x].name), h.tree[top].gnid, h.tree[d].name);
  }

  /** Each slice of the gathering store is closed under parents. */
  lemma NewSliceClosed(cfg: Config, s: System, t: System, u: SliceTree, keys: set<string>)
    requires SystemOk(cfg, s) && KeysKnown(s, keys) && KeysKnown(t, keys) && CollisionFreeOn(cfg.hash, keys)
    requires Gathered(cfg, s.g, map[], t.g, u, SourceParts(s.sources))
    ensures WellFormed(GlobalPar(t.g)) && ClosedIn(GlobalPar(t.g), u.Keys)
  {
    var par := GlobalPar(t.g);
    GlobalParWellFormed(cfg, t.g);
    forall d | d in u && d in par
      ensures ClosedAt(par, u.Keys, d)
    {
      if par[d] in par {
        ParentGathered(cfg, s, t, u, keys, d);
      }
    }
    RootOfClosed(par, u.Keys);
  }

  lemma ParentGathered(cfg: Config, s: System, t: System, u: SliceTree, keys: set<string>, d: nat)
    requires SystemOk(cfg, s) && KeysKnown(s, keys) && KeysKnown(t, keys) && CollisionFreeOn(cfg.hash, keys)
    requires Gathered(cfg, s.g, map[], t.g, u, SourceParts(s.sources))
    requires d in u && t.g.tree[d].parent in t.g.tree
    ensures t.g.tree[d].parent in u
  {
    var h, parts := t.g, SourceParts(s.sources);
    assert 1 in h.tree && Placed(cfg.hash, h, 1) && 0 !in h.tree;
    assert AppearsIn(parts, h.tree[d].gnid);
    var k := AppearsAt(parts, h.tree[d].gnid);
    var p, c := parts[k], s.sources[k];
    assert SourceOk(cfg, c) && p == SourcePart(c);
    var x :| x in Sharing(p.tree, p.slice.Keys, h.tree[d].gnid);
    assert GlobalKey(h, d) in keys;
    assert p.tree[x].parent in p.tree ==> SourceKey(c.cfg, c.state.tree, x) in keys;
    BringsParent(cfg, h, d, c.cfg, p.tree, p.slice, x, keys);
    var up := p.tree[x].parent;
    assert up in Sharing(p.tree, p.slice.Keys, p.tree[up].gnid);
    AppearsFrom(parts, k, p.tree[up].gnid);
    assert HasNode(h, u, p.tree[up].gnid);
    OneNodePerGnid(cfg, h, SeqFor(h, p.tree[up].gnid), h.tree[d].parent);
  }

  ghost predicate AllClosed(g: Global, slices: seq<Slice>) {
    forall j {:trigger SliceClosedAt(GlobalPar(g), slices, j)} :: 0 <= j < |slices| ==>
      SliceClosedAt(GlobalPar(g), slices, j)
  }

  lemma {:induction false} GatheredClosed(cfg: Config, states: seq<System>, events: seq<Event>, keys: set<string>)
    requires IsRun(cfg, states, events) && CollisionFreeOn(cfg.hash, keys)
    requires forall i :: 0 <= i < |states| ==> KeysKnown(states[i], keys)
    ensures AllClosed(states[|events|].g, states[|events|].slices)
    decreases |events|
  {
    if events != [] {
      var prev, init := states[..|events|], events[..|events| - 1];
      var s, t := prev[|init|], states[|events|];
      GatheredClosed(cfg, prev, init, keys);
      RunOk(cfg, prev, init);
      if events[|events| - 1].Integrate? {
        NewSliceClosed(cfg, s, t, t.slices[|s.slices|].tree, keys);
        StaysClosed(cfg, s, t);
      }
    }
  }

  lemma StaysClosed(cfg: Config, s: System, t: System)
    requires SystemOk(cfg, s) && Step(cfg, s, Integrate, t) && AllClosed(s.g, s.slices)
    requires ClosedIn(GlobalPar(t.g), t.slices[|s.slices|].tree.Keys)
    ensures AllClosed(t.g, t.slices)
  {
    var a, b := GlobalPar(s.g), GlobalPar(t.g);
    GlobalParWellFormed(cfg, s.g);
    GlobalParWellFormed(cfg, t.g);
    forall j | 0 <= j < |t.slices|
      ensures SliceClosedAt(b, t.slices, j)
    {
      if j < |s.slices| {
        assert t.slices[j] == t.slices[..|s.slices|][j];
        assert SliceClosedAt(a, s.slices, j);
        ClosedGrows(a, b, s.slices[j].tree.Keys);
      }
    }
  }

  ghost function GlobalValues(g: Global): SliceTree {
    map d | d in g.tree :: g.tree[d].vals
  }

  /** Every reply of the gathering store, for its current tree or for a window,
      lists parents first, unless the hash collides on the strings met; look-ups
      may have padded its slices. */
  lemma GatheringRepliesLink(
    cfg: Config, states: seq<System>, events: seq<Event>, keys: set<string>, pad: nat,
    start: int, from: int, to: int, slices: seq<Slice>, m: SliceTree, known: set<NodeId>)
    requires IsRun(cfg, states, events) && CollisionFreeOn(cfg.hash, keys)
    requires forall i :: 0 <= i < |states| ==> KeysKnown(states[i], keys)
    requires MergedTo(cfg, Padded(states[|events|].slices, pad), start, from, to, slices, m)
    ensures var g := states[|events|].g;
      && Ordered(known, Dump(GlobalPar(g), GlobalValues(g)))
      && m.Keys <= g.tree.Keys && Ordered(known, Dump(GlobalPar(g), m))
  {
    var t := states[|events|];
    var par, slices0 := GlobalPar(t.g), Padded(t.slices, pad);
    RunOk(cfg, states, events);
    GlobalParWellFormed(cfg, t.g);
    GatheredClosed(cfg, states, events, keys);
    forall k | 0 <= k < |slices0|
      ensures SliceClosedAt(par, slices0, k)
    {
      assert k < |t.slices| ==> SliceClosedAt(par, t.slices, k);
    }
    PartClosed(cfg, par, slices0, slices, Upto(start, from), Upto(start, to));
    WholeTreeClosed(par);
    assert GlobalValues(t.g).Keys == par.Keys;
    RepliesLink(par, GlobalValues(t.g), known);
    RepliesLink(par, m, known);
  }

  // ------------------------------------------------------ windows as differences

  /** The gathering tree as gathering number `t` left it. */
  ghost function GatheredAt(states: seq<System>, events: seq<Event>, t: int): Global
    requires |states| == |events| + 1
    decreases |events|
  {
    if events == [] || |states[|events|].slices| <= t then states[|events|].g
    else GatheredAt(states[..|events|], events[..|events| - 1], t)
  }

  lemma SlicesMatchTree(cfg: Config, states: seq<System>, events: seq<Event>, d: nat, e: Entry)
    requires IsRun(cfg, states, events)
    ensures AllWidths(cfg, states[|events|].slices)
    ensures var s := states[|events|]; Value(s.g, d, e) == SliceValue(cfg, Merge(cfg, s.slices), d, e)
  {
    var s := states[|events|];
    RunOk(cfg, states, events);
    if d in s.g.tree {
      GlobalHolds(cfg, states, events, d, e);
    } else {
      MergeKeys(cfg, s.slices, s.g.tree.Keys);
    }
  }

  lemma {:induction false} SlicesHoldGathered(cfg: Config, states: seq<System>, events: seq<Event>, t: int, d: nat, e: Entry)
    requires IsRun(cfg, states, events)
    ensures AllWidths(cfg, states[|events|].slices) && AllWidths(cfg, Cut(states[|events|].slices, Upto(1, t + 1)))
    ensures Value(GatheredAt(states, events, t), d, e)
         == SliceValue(cfg, Merge(cfg, Cut(states[|events|].slices, Upto(1, t + 1))), d, e)
    decreases |events|
  {
    var slices, n := states[|events|].slices, Upto(1, t + 1);
    RunOk(cfg, states, events);
    CutWidths(cfg, slices, n);
    if |slices| <= t || events == [] {
      SlicesMatchTree(cfg, states, events, d, e);
      assert Cut(slices, n) == slices;
    } else {
      var prev, init := states[..|events|], events[..|events| - 1];
      SlicesHoldGathered(cfg, prev, init, t, d, e);
      assert Cut(slices, n) == Cut(prev[|init|].slices, n);
    }
  }

  /** A window of the gathering store is what its tree has gained in between, in
      every number that is gathered. Its slices begin at time 1. */
  lemma GatheringWindow(
    cfg: Config, states: seq<System>, events: seq<Event>, pad: nat,
    from: int, to: int, slices: seq<Slice>, m: SliceTree, d: nat, e: Entry)
    requires IsRun(cfg, states, events) && from <= to && Gathers(cfg, e)
    requires MergedTo(cfg, Padded(states[|events|].slices, pad), 1, from, to + 1, slices, m)
    ensures SliceValue(cfg, m, d, e)
         == Value(GatheredAt(states, events, to), d, e) - Value(GatheredAt(states, events, from - 1), d, e)
  {
    var own, lo, hi := states[|events|].slices, Upto(1, from), Upto(1, to + 1);
    SlicesHoldGathered(cfg, states, events, to, d, e);
    SlicesHoldGathered(cfg, states, events, from - 1, d, e);
    CutPadded(cfg, own, pad, lo);
    CutPadded(cfg, own, pad, hi);
    WindowParts(cfg, Padded(own, pad), slices, lo, hi);
    WindowAdds(cfg, slices, lo, hi, d, e);
  }

  lemma WindowAdds(cfg: Config, slices: seq<Slice>, lo: nat, hi: nat, d: nat, e: Entry)
    requires AllWidths(cfg, slices) && lo <= hi <= |slices| && Gathers(cfg, e)
    ensures SliceValue(cfg, Merge(cfg, slices[..hi]), d, e)
         == SliceValue(cfg, Merge(cfg, slices[..lo]), d, e) + SliceValue(cfg, Merge(cfg, slices[lo..hi]), d, e)
  {
    Split(slices, lo, hi);
    PartsAdd(cfg, slices[..lo], slices[lo..hi], d, e);
  }

  lemma PartsAdd(cfg: Config, a: seq<Slice>, b: seq<Slice>, d: nat, e: Entry)
    requires AllWidths(cfg, a) && AllWidths(cfg, b) && Gathers(cfg, e)
    ensures AllWidths(cfg, a + b)
    ensures SliceValue(cfg, Merge(cfg, a + b), d, e)
         == SliceValue(cfg, Merge(cfg, a), d, e) + SliceValue(cfg, Merge(cfg, b), d, e)
  {
    MergeAppend(cfg, a, b);
    OntoEntry(cfg, Merge(cfg, a), Merge(cfg, b), d, e);
  }
}
