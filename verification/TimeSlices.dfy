/** The per-interval slices of one thread, and what merging a range of them gives. */
module TimeSlices {
  import opened Wire
  import opened Sums
  import opened Forest
  import opened StoreModel

  type SliceTree = map<NodeId, SliceNode>

  /** The slices, made long enough to hold `n` of them. */
  ghost function Padded(slices: seq<Slice>, n: nat): seq<Slice> {
    if n <= |slices| then slices else slices + seq(n - |slices|, _ => EMPTY_SLICE)
  }

  ghost function PutSlice(slices: seq<Slice>, k: nat, slice: Slice): seq<Slice> {
    Padded(slices, k + 1)[k := slice]
  }

  ghost predicate EmptyFrom(slices: seq<Slice>, k: nat) {
    forall j :: k <= j < |slices| ==> slices[j].tree == map[]
  }

  ghost predicate SliceWidths(cfg: Config, tree: SliceTree) {
    forall x :: x in tree ==> |tree[x].all| == |cfg.meta| && |tree[x].cld| == |cfg.meta|
  }

  ghost predicate AllWidths(cfg: Config, slices: seq<Slice>) {
    forall k :: 0 <= k < |slices| ==> SliceWidths(cfg, slices[k].tree)
  }

  function ZeroNode(cfg: Config): SliceNode {
    SliceNode(Zeros(|cfg.meta|), Zeros(|cfg.meta|), 0)
  }

  /** Static columns are replaced, all others added. */
  ghost function Combine(cfg: Config, a: seq<int>, b: seq<int>): (s: seq<int>)
    requires |a| == |b| == |cfg.meta|
    ensures |s| == |cfg.meta|
    ensures forall i :: 0 <= i < |s| ==> s[i] == if cfg.meta[i].isStatic then b[i] else a[i] + b[i]
  {
    seq(|cfg.meta|, i requires 0 <= i < |cfg.meta| =>
      if cfg.meta[i].isStatic then b[i] else a[i] + b[i])
  }

  ghost function Accumulate(cfg: Config, a: SliceNode, b: SliceNode): SliceNode
    requires |a.all| == |a.cld| == |b.all| == |b.cld| == |cfg.meta|
  {
    SliceNode(Combine(cfg, a.all, b.all), Combine(cfg, a.cld, b.cld), a.callCount + b.callCount)
  }

  ghost function NodeOr(cfg: Config, tree: SliceTree, x: NodeId): SliceNode {
    if x in tree then tree[x] else ZeroNode(cfg)
  }

  /** Accumulates every node of `b` onto `a`. */
  ghost function Onto(cfg: Config, a: SliceTree, b: SliceTree): (r: SliceTree)
    requires SliceWidths(cfg, a) && SliceWidths(cfg, b)
    ensures SliceWidths(cfg, r) && r.Keys == a.Keys + b.Keys
  {
    map x | x in a.Keys + b.Keys :: if x in b then Accumulate(cfg, NodeOr(cfg, a, x), b[x]) else a[x]
  }

  ghost function Merge(cfg: Config, slices: seq<Slice>): (r: SliceTree)
    requires AllWidths(cfg, slices)
    ensures SliceWidths(cfg, r)
  {
    if slices == [] then map[]
    else Onto(cfg, Merge(cfg, slices[..|slices| - 1]), slices[|slices| - 1].tree)
  }

  ghost predicate NodeWidths(cfg: Config, n: SliceNode) {
    |n.all| == |n.cld| == |cfg.meta|
  }

  lemma AccumulateAssoc(cfg: Config, a: SliceNode, b: SliceNode, c: SliceNode)
    requires NodeWidths(cfg, a) && NodeWidths(cfg, b) && NodeWidths(cfg, c)
    ensures Accumulate(cfg, Accumulate(cfg, a, b), c) == Accumulate(cfg, a, Accumulate(cfg, b, c))
    ensures Accumulate(cfg, ZeroNode(cfg), c) == c
  {
    var l, r := Accumulate(cfg, Accumulate(cfg, a, b), c), Accumulate(cfg, a, Accumulate(cfg, b, c));
    assert l.all == r.all && l.cld == r.cld;
    var z := Accumulate(cfg, ZeroNode(cfg), c);
    assert z.all == c.all && z.cld == c.cld;
  }

  lemma OntoAssoc(cfg: Config, a: SliceTree, b: SliceTree, c: SliceTree)
    requires SliceWidths(cfg, a) && SliceWidths(cfg, b) && SliceWidths(cfg, c)
    ensures Onto(cfg, Onto(cfg, a, b), c) == Onto(cfg, a, Onto(cfg, b, c))
  {
    var l, r := Onto(cfg, Onto(cfg, a, b), c), Onto(cfg, a, Onto(cfg, b, c));
    OntoAssocKeys(cfg, a, b, c);
    forall x | x in l.Keys
      ensures l[x] == r[x]
    {
      OntoAssocAt(cfg, a, b, c, x);
    }
    SameMap(l, r);
  }

  lemma OntoAssocKeys(cfg: Config, a: SliceTree, b: SliceTree, c: SliceTree)
    requires SliceWidths(cfg, a) && SliceWidths(cfg, b) && SliceWidths(cfg, c)
    ensures Onto(cfg, Onto(cfg, a, b), c).Keys == Onto(cfg, a, Onto(cfg, b, c)).Keys == a.Keys + b.Keys + c.Keys
  {
  }

  lemma SameMap<K, V>(a: map<K, V>, b: map<K, V>)
    requires a.Keys == b.Keys && forall x :: x in a ==> a[x] == b[x]
    ensures a == b
  {
  }

  lemma OntoAssocAt(cfg: Config, a: SliceTree, b: SliceTree, c: SliceTree, x: NodeId)
    requires SliceWidths(cfg, a) && SliceWidths(cfg, b) && SliceWidths(cfg, c)
    requires x in a || x in b || x in c
    ensures Onto(cfg, Onto(cfg, a, b), c)[x] == Onto(cfg, a, Onto(cfg, b, c))[x]
  {
    if x in c {
      AccumulateAssoc(cfg, NodeOr(cfg, a, x), NodeOr(cfg, b, x), c[x]);
    }
  }

  lemma OntoEmpty(cfg: Config, a: SliceTree)
    requires SliceWidths(cfg, a)
    ensures Onto(cfg, a, map[]) == a
  {
  }

  lemma OntoNothing(cfg: Config, values: SliceTree)
    requires SliceWidths(cfg, values)
    ensures Onto(cfg, map[], values) == values
  {
    forall x | x in values
      ensures Onto(cfg, map[], values)[x] == values[x]
    {
      assert NodeWidths(cfg, values[x]);
      AccumulateAssoc(cfg, values[x], values[x], values[x]);
    }
    SameMap(Onto(cfg, map[], values), values);
  }

  lemma InitAppend<T>(s: seq<T>, t: seq<T>)
    requires t != []
    ensures (s + t)[..|s + t| - 1] == s + t[..|t| - 1] && (s + t)[|s + t| - 1] == t[|t| - 1]
  {
  }

  lemma Split<T>(s: seq<T>, lo: nat, hi: nat)
    requires lo <= hi <= |s|
    ensures s[..lo] + s[lo..hi] == s[..hi]
  {
  }

  /** Adjacent windows compose to the larger window, static columns included. */
  lemma {:induction false} MergeAppend(cfg: Config, s: seq<Slice>, t: seq<Slice>)
    requires AllWidths(cfg, s) && AllWidths(cfg, t)
    ensures AllWidths(cfg, s + t)
    ensures Merge(cfg, s + t) == Onto(cfg, Merge(cfg, s), Merge(cfg, t))
  {
    if t == [] {
      assert s + t == s;
      OntoEmpty(cfg, Merge(cfg, s));
    } else {
      var init := t[..|t| - 1];
      MergeAppend(cfg, s, init);
      InitAppend(s, t);
      OntoAssoc(cfg, Merge(cfg, s), Merge(cfg, init), t[|t| - 1].tree);
    }
  }

  /** Empty slices contribute nothing. */
  lemma {:induction false} MergeEmpty(cfg: Config, slices: seq<Slice>)
    requires EmptyFrom(slices, 0)
    ensures AllWidths(cfg, slices)
    ensures Merge(cfg, slices) == map[]
  {
    if slices != [] {
      MergeEmpty(cfg, slices[..|slices| - 1]);
    }
  }

  lemma MergeTrim(cfg: Config, slices: seq<Slice>, k: nat)
    requires AllWidths(cfg, slices) && EmptyFrom(slices, k) && k <= |slices|
    ensures Merge(cfg, slices) == Merge(cfg, slices[..k])
  {
    MergeAppend(cfg, slices[..k], slices[k..]);
    MergeEmpty(cfg, slices[k..]);
    assert slices[..k] + slices[k..] == slices;
    OntoEmpty(cfg, Merge(cfg, slices[..k]));
  }

  /** Slices made on demand beyond the end change no merge. */
  lemma MergePadded(cfg: Config, slices: seq<Slice>, n: nat)
    requires AllWidths(cfg, slices)
    ensures AllWidths(cfg, Padded(slices, n))
    ensures Merge(cfg, Padded(slices, n)) == Merge(cfg, slices)
  {
    if n > |slices| {
      var p := Padded(slices, n);
      assert p[..|slices|] == slices;
      MergeTrim(cfg, p, |slices|);
    }
  }

  /** Filling a slice beyond all filled ones accumulates it last. */
  lemma MergePut(cfg: Config, slices: seq<Slice>, k: nat, slice: Slice)
    requires AllWidths(cfg, slices) && SliceWidths(cfg, slice.tree) && EmptyFrom(slices, k)
    ensures AllWidths(cfg, PutSlice(slices, k, slice))
    ensures Merge(cfg, PutSlice(slices, k, slice)) == Onto(cfg, Merge(cfg, slices), slice.tree)
  {
    var p, q := Padded(slices, k + 1), PutSlice(slices, k, slice);
    PutParts(cfg, slices, k, slice);
    MergePadded(cfg, slices, k + 1);
    MergeTrim(cfg, p, k);
    MergeTrim(cfg, q, k + 1);
    MergeLast(cfg, p[..k], slice);
  }

  lemma PutParts(cfg: Config, slices: seq<Slice>, k: nat, slice: Slice)
    requires AllWidths(cfg, slices) && SliceWidths(cfg, slice.tree) && EmptyFrom(slices, k)
    ensures var p, q := Padded(slices, k + 1), PutSlice(slices, k, slice);
      && |p| == |q| && k < |q| && EmptyFrom(p, k) && EmptyFrom(q, k + 1)
      && AllWidths(cfg, q) && q[..k + 1] == p[..k] + [slice]
  {
  }

  lemma MergeLast(cfg: Config, init: seq<Slice>, slice: Slice)
    requires AllWidths(cfg, init) && SliceWidths(cfg, slice.tree)
    ensures AllWidths(cfg, init + [slice])
    ensures Merge(cfg, init + [slice]) == Onto(cfg, Merge(cfg, init), slice.tree)
  {
    InitAppend(init, [slice]);
    assert init + [slice][..0] == init;
  }

  // ------------------------------------------------------------- time windows

  /** How many slices from `start` on lie before time `t`. */
  function Upto(start: int, t: int): nat {
    if t < start then 0 else t - start
  }

  /** The slices for times `from` up to but not including `t` have been merged. */
  ghost predicate MergedTo(
    cfg: Config, slices0: seq<Slice>, start: int, from: int, t: int, slices: seq<Slice>, m: SliceTree)
  {
    && AllWidths(cfg, slices)
    && slices == Padded(slices0, Upto(start, t))
    && Upto(start, from) <= Upto(start, t) <= |slices|
    && m == Merge(cfg, slices[Upto(start, from)..Upto(start, t)])
  }

  // ------------------------------------------------- values read from merges

  ghost function SliceAll(tree: SliceTree, x: NodeId, i: nat): int {
    if x in tree && i < |tree[x].all| then tree[x].all[i] else 0
  }

  ghost function SliceCld(tree: SliceTree, x: NodeId, i: nat): int {
    if x in tree && i < |tree[x].cld| then tree[x].cld[i] else 0
  }

  ghost function SliceCount(tree: SliceTree, x: NodeId): int {
    if x in tree then tree[x].callCount else 0
  }

  /** A window is the difference of two merges from the beginning. */
  lemma MergeDifference(cfg: Config, slices: seq<Slice>, lo: nat, hi: nat, x: NodeId, i: nat)
    requires AllWidths(cfg, slices) && lo <= hi <= |slices|
    requires i < |cfg.meta| && !cfg.meta[i].isStatic
    ensures var w, a, b := Merge(cfg, slices[lo..hi]), Merge(cfg, slices[..lo]), Merge(cfg, slices[..hi]);
      && SliceAll(w, x, i) == SliceAll(b, x, i) - SliceAll(a, x, i)
      && SliceCld(w, x, i) == SliceCld(b, x, i) - SliceCld(a, x, i)
      && SliceCount(w, x) == SliceCount(b, x) - SliceCount(a, x)
  {
    Split(slices, lo, hi);
    MergeAppend(cfg, slices[..lo], slices[lo..hi]);
    OntoAdds(cfg, Merge(cfg, slices[..lo]), Merge(cfg, slices[lo..hi]), x, i);
  }

  lemma OntoAdds(cfg: Config, a: SliceTree, w: SliceTree, x: NodeId, i: nat)
    requires SliceWidths(cfg, a) && SliceWidths(cfg, w) && i < |cfg.meta| && !cfg.meta[i].isStatic
    ensures var b := Onto(cfg, a, w);
      && SliceAll(b, x, i) == SliceAll(a, x, i) + SliceAll(w, x, i)
      && SliceCld(b, x, i) == SliceCld(a, x, i) + SliceCld(w, x, i)
      && SliceCount(b, x) == SliceCount(a, x) + SliceCount(w, x)
  {
  }
}
