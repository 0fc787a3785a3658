/** Whole runs of stores: what the tree holds after any sequence of buffers. */
module StoreRuns {
  import opened Wire
  import opened Sums
  import opened Forest
  import opened StoreModel
  import opened TimeSlices

  /** What a buffer contributes at the nodes of `seen`: the last record of a node counts. */
  ghost function SeenCol(seen: set<NodeId>, recs: seq<Record>, m: Measure): map<NodeId, int> {
    map x | x in seen && x in Ids(recs) :: LatestAmount(recs, x, m)
  }

  lemma SeenColGet(seen: set<NodeId>, recs: seq<Record>, m: Measure, x: NodeId)
    ensures Get(SeenCol(seen, recs, m), x) == if x in seen then LatestAmount(recs, x, m) else 0
  {
    IdsAreReported(recs, x);
  }

  predicate Summed(cfg: Config, i: nat)
    requires i < |cfg.meta|
  {
    !cfg.meta[i].isStatic
  }

  predicate Plain(cfg: Config, i: nat)
    requires i < |cfg.meta|
  {
    !cfg.meta[i].isStatic && !cfg.meta[i].accumulated
  }

  /** What node `x` of `tree` gains from one buffer in a column that is summed. */
  ghost function BufferGain(cfg: Config, tree: Tree, recs: seq<Record>, x: NodeId, i: nat): int
    requires i < |cfg.meta|
  {
    if Plain(cfg, i) then Sum(Subtree(Par(tree), x), SeenCol(Seen(cfg, tree), recs, Column(i)))
    else Get(SeenCol(Seen(cfg, tree), recs, Column(i)), x)
  }

  ghost function AllAt(tree: Tree, x: NodeId, i: nat): int {
    if x in tree && i < |tree[x].all| then tree[x].all[i] else 0
  }

  ghost function CldAt(tree: Tree, x: NodeId, i: nat): int {
    if x in tree && i < |tree[x].cld| then tree[x].cld[i] else 0
  }

  ghost function CountAt(tree: Tree, x: NodeId): int {
    if x in tree then tree[x].callCount else 0
  }

  ghost function AllCol(tree: Tree, i: nat): map<NodeId, int> {
    map x | x in tree :: AllAt(tree, x, i)
  }

  // ------------------------------------------------------------ one store

  ghost predicate Good(cfg: Config, tree: Tree) {
    ValidTree(cfg, tree) && Quiet(cfg, tree) && GnidsOk(cfg, tree)
  }

  ghost predicate Fits(cfg: Config, tree: Tree, recs: seq<Record>) {
    Storable(tree.Keys, recs) && RecordWidths(cfg, recs)
  }

  /** New nodes start from zero and old ones keep their totals. */
  lemma {:induction false} AddAllValues(cfg: Config, tree: Tree, recs: seq<Record>)
    requires ValidTree(cfg, tree) && Storable(tree.Keys, recs)
    ensures var big := AddAll(cfg, tree, recs);
      forall x :: x in big ==>
        && (x in tree ==> big[x].all == tree[x].all && big[x].cld == tree[x].cld
                          && big[x].callCount == tree[x].callCount)
        && (x !in tree ==> big[x].all == Zeros(Width(cfg, x)) && big[x].cld == Zeros(Width(cfg, x))
                           && big[x].callCount == 0)
  {
    if recs != [] {
      StorablePrefix(tree.Keys, recs);
      StorableLast(tree.Keys, recs);
      AddAllValues(cfg, tree, recs[..|recs| - 1]);
    }
  }

  /** Staging leaves totals alone, and fills what clearing will collect: every
      node that is seen and has a record is among it. */
  lemma StagedNode(cfg: Config, tree: Tree, run: NodeId, recs: seq<Record>, x: NodeId)
    requires Good(cfg, tree) && Fits(cfg, tree, recs)
    ensures var g, big := Staged(cfg, tree, run, recs), AddAll(cfg, tree, recs);
      && (x in g ==>
            && x in big && g[x].all == big[x].all && g[x].cld == big[x].cld && g[x].callCount == big[x].callCount
            && |big[x].all| == |big[x].cld| == Width(cfg, x))
      && (x in Collected(cfg, g) ==>
            && x in g && g[x] == Stage(cfg, big[x], true, g[x].running, Latest(recs, x)))
      && (Latest(recs, x).Some? ==>
            && |Latest(recs, x).value.values| == |cfg.meta|
            && (x in Seen(cfg, g) ==> x in Collected(cfg, g)))
  {
    var big := AddAll(cfg, tree, recs);
    var marked, running := MarkSet(tree, big, run, recs), RunningSet(tree, big, run);
    StagedValid(cfg, tree, run, recs);
    StaleUnseen(cfg, tree, recs);
    AddAllValid(cfg, tree, recs);
    if Latest(recs, x).Some? {
      IdsAreReported(recs, x);
      ReportedMarked(tree, big, run, recs, x);
    }
    if x in big {
      assert ValidNode(cfg, big, x);
      assert Staged(cfg, tree, run, recs)[x] == Stage(cfg, big[x], x in marked, x in running, Latest(recs, x));
    }
  }

  /** What will be collected is the record values of the nodes that are seen. */
  lemma StagedTemps(cfg: Config, tree: Tree, run: NodeId, recs: seq<Record>, x: NodeId, i: nat)
    requires Good(cfg, tree) && Fits(cfg, tree, recs) && i < |cfg.meta|
    ensures var g := Staged(cfg, tree, run, recs); var c, seen := Collected(cfg, g), Seen(cfg, g);
      && (Summed(cfg, i) ==> Get(TempCol(g, c, i), x) == Get(SeenCol(seen, recs, Column(i)), x))
      && (x in c ==> g[x].tempCount == LatestAmount(recs, x, CallCount))
      && (x in seen && x !in c ==> Latest(recs, x).None?)
      && (x in c ==> x in seen)
  {
    var g := Staged(cfg, tree, run, recs);
    StagedNode(cfg, tree, run, recs, x);
    TempsAt(cfg, AddAll(cfg, tree, recs), g, Collected(cfg, g), Seen(cfg, g), recs, x, i);
  }

  lemma TempsAt(
    cfg: Config, big: Tree, g: Tree, c: set<NodeId>, seen: set<NodeId>, recs: seq<Record>, x: NodeId, i: nat)
    requires c <= seen && i < |cfg.meta|
    requires x in c ==> x in big && x in g && g[x] == Stage(cfg, big[x], true, g[x].running, Latest(recs, x))
    requires Latest(recs, x).Some? ==> |Latest(recs, x).value.values| == |cfg.meta| && (x in seen ==> x in c)
    ensures Summed(cfg, i) ==> Get(TempCol(g, c, i), x) == Get(SeenCol(seen, recs, Column(i)), x)
    ensures x in c ==> g[x].tempCount == LatestAmount(recs, x, CallCount)
    ensures x in seen && x !in c ==> Latest(recs, x).None?
  {
    SeenColGet(seen, recs, Column(i), x);
    if x in c {
      StageTemp(cfg, big[x], g[x], Latest(recs, x), i);
      TempColGet(g, c, x, i);
    }
  }

  lemma StageTemp(cfg: Config, node: Node, n: Node, o: Option<Record>, i: nat)
    requires n == Stage(cfg, node, true, n.running, o) && i < |cfg.meta|
    requires o.Some? ==> |o.value.values| == |cfg.meta|
    ensures |n.temp| == |cfg.meta|
    ensures Summed(cfg, i) ==> n.temp[i] == if o.Some? then o.value.values[i] else 0
    ensures n.tempCount == if o.Some? then o.value.callCount else 0
  {
  }

  /** In static columns a marked node without a record keeps its value. */
  lemma StagedStatic(cfg: Config, tree: Tree, run: NodeId, recs: seq<Record>, x: NodeId, i: nat)
    requires Good(cfg, tree) && Fits(cfg, tree, recs) && i < |cfg.meta| && !Summed(cfg, i)
    ensures var g := Staged(cfg, tree, run, recs);
      x in Collected(cfg, g) ==>
        Get(TempCol(g, Collected(cfg, g), i), x)
        == if Latest(recs, x).Some? then LatestAmount(recs, x, Column(i))
           else if cfg.single then 0 else AllAt(AddAll(cfg, tree, recs), x, i)
  {
    var g, big := Staged(cfg, tree, run, recs), AddAll(cfg, tree, recs);
    StagedNode(cfg, tree, run, recs, x);
    if x in Collected(cfg, g) {
      StaticTemp(cfg, big[x], g[x], Latest(recs, x), i);
      TempColGet(g, Collected(cfg, g), x, i);
    }
  }

  lemma TempColGet(g: Tree, c: set<NodeId>, x: NodeId, i: nat)
    requires x in g && x in c && i < |g[x].temp|
    ensures Get(TempCol(g, c, i), x) == g[x].temp[i]
  {
  }

  lemma StaticTemp(cfg: Config, node: Node, n: Node, o: Option<Record>, i: nat)
    requires n == Stage(cfg, node, true, n.running, o) && i < |cfg.meta| && !Summed(cfg, i)
    requires o.Some? ==> |o.value.values| == |cfg.meta|
    ensures |n.temp| == |cfg.meta|
    ensures n.temp[i] == if o.Some? then o.value.values[i]
                         else if !cfg.single && i < |node.all| then node.all[i] else 0
  {
  }

  /** Collected or not, a node's gain is what the buffer says about its subtree. */
  lemma GainIsBufferGain(cfg: Config, tree: Tree, run: NodeId, recs: seq<Record>, x: NodeId, i: nat)
    requires Good(cfg, tree) && Fits(cfg, tree, recs) && i < |cfg.meta| && Summed(cfg, i)
    requires x in Staged(cfg, tree, run, recs)
    ensures var g := Staged(cfg, tree, run, recs); var c := Collected(cfg, g);
      BufferGain(cfg, g, recs, x, i) == if x in c then Gain(cfg, g, c, x, i) else 0
  {
    var g := Staged(cfg, tree, run, recs);
    var c, seen := Collected(cfg, g), SeenCol(Seen(cfg, g), recs, Column(i));
    StagedValid(cfg, tree, run, recs);
    StagedTemps(cfg, tree, run, recs, x, i);
    if Plain(cfg, i) {
      forall y
        ensures Get(TempCol(g, c, i), y) == Get(seen, y)
      {
        StagedTemps(cfg, tree, run, recs, y, i);
      }
      SumSame(Subtree(Par(g), x), TempCol(g, c, i), seen);
      if x !in c {
        NothingBelow(g, c, x, i);
      }
    }
  }

  /** One store, column by column, in a column that is summed. */
  lemma StoreColumn(cfg: Config, tree: Tree, run: NodeId, recs: seq<Record>, x: NodeId, i: nat)
    requires Good(cfg, tree) && Fits(cfg, tree, recs) && i < |cfg.meta| && Summed(cfg, i)
    requires x in StoreTree(cfg, tree, run, recs)
    ensures var t := StoreTree(cfg, tree, run, recs);
      && |t[x].all| == |t[x].cld| == Width(cfg, x)
      && (i < Width(cfg, x) ==> AllAt(t, x, i) == AllAt(tree, x, i) + BufferGain(cfg, t, recs, x, i))
  {
    var g, t := Staged(cfg, tree, run, recs), StoreTree(cfg, tree, run, recs);
    var c := Collected(cfg, g);
    StagedValid(cfg, tree, run, recs);
    SettleValid(cfg, g, c);
    AddAllValues(cfg, tree, recs);
    StagedNode(cfg, tree, run, recs, x);
    GainIsBufferGain(cfg, tree, run, recs, x, i);
    SettledColumn(cfg, g, c, x, i);
    SameSeen(cfg, g, t);
    assert AllAt(g, x, i) == AllAt(tree, x, i);
  }

  /** What a store writes into its slice for a node, in either mode: its calls,
      what the buffer says about the seen nodes of its subtree, or about itself in
      an A column, and in a static column what the buffer says about it, or else
      the value it had, or zero in single-tree mode. */
  lemma SliceSays(cfg: Config, tree: Tree, run: NodeId, recs: seq<Record>, x: NodeId, i: nat)
    requires Good(cfg, tree) && Fits(cfg, tree, recs) && i < |cfg.meta|
    requires x in StoreSlice(cfg, tree, run, recs)
    ensures var t, s := StoreTree(cfg, tree, run, recs), StoreSlice(cfg, tree, run, recs)[x];
      && s.callCount == LatestAmount(recs, x, CallCount)
      && |s.all| == |s.cld| == |cfg.meta|
      && (if !cfg.meta[i].isStatic then s.all[i] == BufferGain(cfg, t, recs, x, i)
          else && s.cld[i] == 0
               && s.all[i] == if Latest(recs, x).Some? then LatestAmount(recs, x, Column(i))
                              else if cfg.single then 0 else AllAt(tree, x, i))
  {
    SliceGains(cfg, tree, run, recs, x, i);
    if Summed(cfg, i) {
      GainInTree(cfg, tree, run, recs, x, i);
    } else {
      GainIsStatic(cfg, tree, run, recs, x, i);
    }
  }

  lemma SliceGains(cfg: Config, tree: Tree, run: NodeId, recs: seq<Record>, x: NodeId, i: nat)
    requires Good(cfg, tree) && Fits(cfg, tree, recs) && i < |cfg.meta|
    requires x in StoreSlice(cfg, tree, run, recs)
    ensures var g, s := Staged(cfg, tree, run, recs), StoreSlice(cfg, tree, run, recs)[x];
      && x in g && x in Collected(cfg, g) && s.callCount == LatestAmount(recs, x, CallCount)
      && |s.all| == |s.cld| == |cfg.meta|
      && s.all[i] == Gain(cfg, g, Collected(cfg, g), x, i) && (cfg.meta[i].isStatic ==> s.cld[i] == 0)
  {
    StagedTemps(cfg, tree, run, recs, x, i);
    var g := Staged(cfg, tree, run, recs);
    assert StoreSlice(cfg, tree, run, recs)[x] == SettledSlice(cfg, g, Collected(cfg, g), x);
  }

  lemma GainInTree(cfg: Config, tree: Tree, run: NodeId, recs: seq<Record>, x: NodeId, i: nat)
    requires Good(cfg, tree) && Fits(cfg, tree, recs) && i < |cfg.meta| && Summed(cfg, i)
    requires var g := Staged(cfg, tree, run, recs); x in g && x in Collected(cfg, g)
    ensures var g := Staged(cfg, tree, run, recs);
      Gain(cfg, g, Collected(cfg, g), x, i) == BufferGain(cfg, StoreTree(cfg, tree, run, recs), recs, x, i)
  {
    var g := Staged(cfg, tree, run, recs);
    StagedValid(cfg, tree, run, recs);
    SettleValid(cfg, g, Collected(cfg, g));
    GainIsBufferGain(cfg, tree, run, recs, x, i);
    SameSeen(cfg, g, StoreTree(cfg, tree, run, recs));
  }

  lemma GainIsStatic(cfg: Config, tree: Tree, run: NodeId, recs: seq<Record>, x: NodeId, i: nat)
    requires Good(cfg, tree) && Fits(cfg, tree, recs) && i < |cfg.meta| && !Summed(cfg, i)
    requires var g := Staged(cfg, tree, run, recs); x in g && x in Collected(cfg, g)
    ensures var g := Staged(cfg, tree, run, recs);
      Gain(cfg, g, Collected(cfg, g), x, i)
      == if Latest(recs, x).Some? then LatestAmount(recs, x, Column(i))
         else if cfg.single then 0 else AllAt(tree, x, i)
  {
    StagedStatic(cfg, tree, run, recs, x, i);
    AddAllValues(cfg, tree, recs);
  }

  lemma SettledColumn(cfg: Config, g: Tree, c: set<NodeId>, x: NodeId, i: nat)
    requires ValidTree(cfg, g) && x in g && i < |cfg.meta| && Summed(cfg, i)
    ensures var t := Settle(cfg, g, c);
      && |t[x].all| == |t[x].cld| == Width(cfg, x)
      && (i < Width(cfg, x) ==> AllAt(t, x, i) == AllAt(g, x, i) + if x in c then Gain(cfg, g, c, x, i) else 0)
  {
    assert ValidNode(cfg, g, x);
    assert Settle(cfg, g, c)[x] == SettledNode(cfg, g, c, x);
  }

  ghost function BufferGains(cfg: Config, tree: Tree, recs: seq<Record>, i: nat): map<NodeId, int>
    requires i < |cfg.meta|
  {
    map c | c in tree :: BufferGain(cfg, tree, recs, c, i)
  }

  lemma SameGains(cfg: Config, g: Tree, t: Tree, recs: seq<Record>, i: nat)
    requires SameOutline(g, t) && i < |cfg.meta|
    ensures BufferGains(cfg, g, recs, i) == BufferGains(cfg, t, recs, i)
  {
    SameSeen(cfg, g, t);
  }

  /** One store, children sums: what the children's totals gain together. */
  lemma StoreChildren(cfg: Config, tree: Tree, run: NodeId, recs: seq<Record>, x: NodeId, i: nat)
    requires Good(cfg, tree) && Fits(cfg, tree, recs) && i < |cfg.meta| && Summed(cfg, i)
    requires x in StoreTree(cfg, tree, run, recs) && i < Width(cfg, x)
    ensures var t := StoreTree(cfg, tree, run, recs);
      CldAt(t, x, i) == CldAt(tree, x, i) + Sum(Kids(Par(t), x), BufferGains(cfg, t, recs, i))
  {
    var g, t := Staged(cfg, tree, run, recs), StoreTree(cfg, tree, run, recs);
    var c := Collected(cfg, g);
    StagedValid(cfg, tree, run, recs);
    SettleValid(cfg, g, c);
    AddAllValues(cfg, tree, recs);
    assert ValidNode(cfg, g, x) && ValidNode(cfg, t, x);
    if x in tree {
      assert ValidNode(cfg, tree, x);
    }
    KidsGain(cfg, tree, run, recs, g, x, i);
    SameGains(cfg, g, t, recs, i);
    StagedNode(cfg, tree, run, recs, x);
    assert CldAt(g, x, i) == CldAt(tree, x, i);
    assert t[x] == SettledNode(cfg, g, c, x);
    assert CldAt(t, x, i) == CldAt(g, x, i) + if x in c then ChildGain(cfg, g, c, Kids(Par(g), x), i) else 0;
  }

  lemma KidsGain(cfg: Config, tree: Tree, run: NodeId, recs: seq<Record>, g: Tree, x: NodeId, i: nat)
    requires Good(cfg, tree) && Fits(cfg, tree, recs) && i < |cfg.meta| && Summed(cfg, i)
    requires g == Staged(cfg, tree, run, recs) && x in g
    ensures Sum(Kids(Par(g), x), BufferGains(cfg, g, recs, i))
         == if x in Collected(cfg, g) then ChildGain(cfg, g, Collected(cfg, g), Kids(Par(g), x), i) else 0
  {
    StagedValid(cfg, tree, run, recs);
    var kids, gains, c := Kids(Par(g), x), BufferGains(cfg, g, recs, i), Collected(cfg, g);
    forall k | k in g
      ensures gains[k] == if k in c then Gain(cfg, g, c, k, i) else 0
    {
      GainIsBufferGain(cfg, tree, run, recs, k, i);
    }
    SumSame(kids, GainCol(cfg, g, c, i), gains);
    if x !in c {
      forall k | k in kids
        ensures Get(gains, k) == 0
      {
        SubtreeOfKid(Par(g), x, k);
        NothingBelow(g, c, x, i);
        assert k in Subtree(Par(g), k);
      }
      SumZero(kids, gains);
    }
  }

  // ------------------------------------------------------------------ runs

  /** What happens to a store: a buffer arrives, a viewer asks for a slice, or, in
      single-tree mode, the slices are thrown away once they have been gathered. */
  datatype Action = Put(time: int, recs: seq<Record>, ni: NowInfo) | Look(time: int) | Remove

  /** `filled` bounds the indexes of the slices that have been filled. */
  datatype State = State(tree: Tree, start: int, slices: seq<Slice>, filled: nat)

  ghost function FirstTree(cfg: Config): (t: Tree)
    ensures Good(cfg, t)
  {
    FirstTreeGood(cfg);
    map[ROOT := NewNode(cfg, ROOT, 0, 0, 1)]
  }

  lemma FirstTreeGood(cfg: Config)
    ensures Good(cfg, map[ROOT := NewNode(cfg, ROOT, 0, 0, 1)])
  {
    var t: Tree := map[ROOT := NewNode(cfg, ROOT, 0, 0, 1)];
    assert Hangs(Par(t), ROOT);
    assert ValidNode(cfg, t, ROOT) && GnidOk(cfg, t, ROOT);
  }

  ghost predicate Sound(cfg: Config, s: State) {
    && Good(cfg, s.tree)
    && AllWidths(cfg, s.slices)
    && s.filled <= |s.slices|
    && EmptyFrom(s.slices, s.filled)
  }

  /** The clock only moves forward between two stores. */
  ghost predicate Enabled(cfg: Config, s: State, a: Action) {
    match a
    case Put(t, recs, _) => Fits(cfg, s.tree, recs) && (s.slices == [] || t >= s.start + s.filled)
    case Look(_) => true
    case Remove => cfg.single
  }

  ghost function StartAt(s: State, t: int): int {
    if s.slices == [] then t else s.start
  }

  /** A slice is looked at, and made if it lies in the future. */
  ghost function LookState(cfg: Config, s: State, t: int): (r: State)
    requires Sound(cfg, s)
    ensures Sound(cfg, r)
  {
    var start := StartAt(s, t);
    MergePadded(cfg, s.slices, if t < start then 0 else t - start + 1);
    s.(start := start, slices := Padded(s.slices, if t < start then 0 else t - start + 1))
  }

  lemma StoreSliceWidths(cfg: Config, tree: Tree, run: NodeId, recs: seq<Record>)
    requires Good(cfg, tree) && Fits(cfg, tree, recs)
    ensures SliceWidths(cfg, StoreSlice(cfg, tree, run, recs))
  {
  }

  ghost function PutOn(cfg: Config, tree: Tree, start: int, slices: seq<Slice>, k: nat, slice: Slice): (r: State)
    requires Good(cfg, tree) && AllWidths(cfg, slices) && SliceWidths(cfg, slice.tree) && EmptyFrom(slices, k)
    ensures Sound(cfg, r)
  {
    PutParts(cfg, slices, k, slice);
    State(tree, start, PutSlice(slices, k, slice), k + 1)
  }

  /** The slice a store fills. */
  ghost function SliceOf(cfg: Config, tree: Tree, recs: seq<Record>, ni: NowInfo): (r: Slice)
    requires Good(cfg, tree) && Fits(cfg, tree, recs)
    ensures SliceWidths(cfg, r.tree)
  {
    StoreSliceWidths(cfg, tree, ni.running, recs);
    Slice(StoreSlice(cfg, tree, ni.running, recs), ni.values, ni.running)
  }

  lemma RoomFor(cfg: Config, s: State, t: int)
    requires Sound(cfg, s) && (s.slices == [] || t >= s.start + s.filled)
    ensures StartAt(s, t) <= t && EmptyFrom(s.slices, t - StartAt(s, t))
  {
  }

  /** A buffer is stored. */
  ghost function PutState(cfg: Config, s: State, t: int, recs: seq<Record>, ni: NowInfo): (r: State)
    requires Sound(cfg, s) && Enabled(cfg, s, Put(t, recs, ni))
    ensures Sound(cfg, r)
  {
    RoomFor(cfg, s, t);
    StoreValid(cfg, s.tree, ni.running, recs);
    PutOn(cfg, StoreTree(cfg, s.tree, ni.running, recs), StartAt(s, t), s.slices, t - StartAt(s, t),
          SliceOf(cfg, s.tree, recs, ni))
  }

  lemma PutIs(cfg: Config, s: State, t: int, recs: seq<Record>, ni: NowInfo, k: int, slice: Slice)
    requires Sound(cfg, s) && Enabled(cfg, s, Put(t, recs, ni))
    requires slice == SliceOf(cfg, s.tree, recs, ni) && k == t - StartAt(s, t)
    ensures SliceWidths(cfg, slice.tree) && k >= 0 && EmptyFrom(s.slices, k)
    ensures PutState(cfg, s, t, recs, ni)
         == State(StoreTree(cfg, s.tree, ni.running, recs), StartAt(s, t), PutSlice(s.slices, k, slice), k + 1)
  {
    RoomFor(cfg, s, t);
  }

  /** The slice for the time of a store is the last one filled, with what was stored. */
  lemma PutFilled(cfg: Config, s: State, t: int, recs: seq<Record>, ni: NowInfo)
    requires Sound(cfg, s) && Enabled(cfg, s, Put(t, recs, ni))
    ensures var r := PutState(cfg, s, t, recs, ni);
      && r.tree == StoreTree(cfg, s.tree, ni.running, recs) && r.slices != []
      && r.start <= t && r.start + r.filled == t + 1 && t - r.start < |r.slices|
      && r.slices[t - r.start] == SliceOf(cfg, s.tree, recs, ni)
  {
    var slice := SliceOf(cfg, s.tree, recs, ni);
    PutIs(cfg, s, t, recs, ni, t - StartAt(s, t), slice);
    PutAt(s.slices, t - StartAt(s, t), slice);
  }

  lemma PutAt(slices: seq<Slice>, k: nat, slice: Slice)
    ensures k < |PutSlice(slices, k, slice)| && PutSlice(slices, k, slice)[k] == slice
  {
  }

  ghost function Act(cfg: Config, s: State, a: Action): (r: State)
    requires Sound(cfg, s) && Enabled(cfg, s, a)
    ensures Sound(cfg, r)
  {
    match a
    case Put(t, recs, ni) => PutState(cfg, s, t, recs, ni)
    case Look(t) => LookState(cfg, s, t)
    case Remove => s.(slices := [], filled := 0)
  }

  ghost predicate Runnable(cfg: Config, run: seq<Action>)
    decreases |run|, 0
  {
    run == [] || (Runnable(cfg, run[..|run| - 1])
                  && Enabled(cfg, After(cfg, run[..|run| - 1]), run[|run| - 1]))
  }

  ghost function After(cfg: Config, run: seq<Action>): (s: State)
    requires Runnable(cfg, run)
    ensures Sound(cfg, s)
    decreases |run|, 1
  {
    if run == [] then State(FirstTree(cfg), 0, [], 0)
    else Act(cfg, After(cfg, run[..|run| - 1]), run[|run| - 1])
  }

  /** The time of the first action since slices were last removed. */
  function Since(run: seq<Action>): Option<int> {
    if run == [] || run[|run| - 1].Remove? then None
    else
      var o := Since(run[..|run| - 1]);
      if o.Some? then o else Some(run[|run| - 1].time)
  }

  /** The slices begin at that time; so the slice for time `t` can be found or
      made exactly if that time is not later than `t`. */
  lemma {:induction false} SliceFound(cfg: Config, run: seq<Action>, t: int)
    requires Runnable(cfg, run)
    ensures After(cfg, run).slices == [] <==> Since(run).None?
    ensures Since(run).Some? ==> After(cfg, run).start == Since(run).value
    ensures StartAt(After(cfg, run), t) <= t <==> (Since(run).Some? ==> Since(run).value <= t)
  {
    if run != [] {
      var init, a := run[..|run| - 1], run[|run| - 1];
      SliceFound(cfg, init, t);
      if a.Put? {
        PutFilled(cfg, After(cfg, init), a.time, a.recs, a.ni);
      }
    }
  }

  /** Everything the buffers of a run said about node `x`. */
  ghost function Received(run: seq<Action>, x: NodeId, m: Measure): int {
    if run == [] then 0
    else
      var a := run[|run| - 1];
      Received(run[..|run| - 1], x, m) + if a.Put? then LatestAmount(a.recs, x, m) else 0
  }

  ghost function ReceivedCol(keys: set<NodeId>, run: seq<Action>, m: Measure): map<NodeId, int> {
    map x | x in keys :: Received(run, x, m)
  }

  /** Only known nodes have been reported about. */
  lemma {:induction false} ReceivedKnown(cfg: Config, run: seq<Action>, x: NodeId, m: Measure)
    requires Runnable(cfg, run) && x !in After(cfg, run).tree
    ensures Received(run, x, m) == 0
  {
    if run != [] {
      var init, a := run[..|run| - 1], run[|run| - 1];
      if a.Put? {
        StoreValid(cfg, After(cfg, init).tree, a.ni.running, a.recs);
        IdsAreReported(a.recs, x);
      }
      ReceivedKnown(cfg, init, x, m);
    }
  }

  /** Subtree sums of a column on old nodes do not notice new nodes. */
  lemma SumGrow(par: Parents, big: Parents, x: NodeId, d: map<NodeId, int>)
    requires WellFormed(par) && WellFormed(big) && Extends(par, big) && x in big
    requires forall y :: y !in par ==> Get(d, y) == 0
    ensures Sum(Subtree(big, x), d) == if x in par then Sum(Subtree(par, x), d) else 0
    ensures Sum(Kids(big, x), d) == if x in par then Sum(Kids(par, x), d) else 0
  {
    forall y | y in par
      ensures Under(big, x, y) == Under(par, x, y)
      ensures x !in par ==> !Under(par, x, y) && big[y] != x
    {
      UnderGrow(par, big, x, y);
      assert Hangs(par, y);
      if Under(par, x, y) {
        UnderOrder(par, x, y);
      }
    }
    var a, b := if x in par then Subtree(par, x) else {}, if x in par then Kids(par, x) else {};
    SumShrink(Subtree(big, x), a, d);
    SumShrink(Kids(big, x), b, d);
  }

  /** A store only adds nodes, and what was seen before is what is seen of them. */
  lemma StoreExtends(cfg: Config, tree: Tree, run: NodeId, recs: seq<Record>)
    requires Good(cfg, tree) && Fits(cfg, tree, recs)
    ensures var t := StoreTree(cfg, tree, run, recs);
      && Good(cfg, t) && Extends(Par(tree), Par(t)) && t.Keys == tree.Keys + Ids(recs)
      && SeenStays(cfg, tree, t)
  {
    var g := Staged(cfg, tree, run, recs);
    StoreValid(cfg, tree, run, recs);
    StagedValid(cfg, tree, run, recs);
    SettleValid(cfg, g, Collected(cfg, g));
    AddAllValid(cfg, tree, recs);
    forall x | x in tree
      ensures x in Seen(cfg, AddAll(cfg, tree, recs)) <==> x in Seen(cfg, tree)
    {
      SeenGrows(cfg, tree, recs, x);
    }
  }

  ghost predicate SeenStays(cfg: Config, tree: Tree, big: Tree) {
    forall x :: x in tree ==> (x in Seen(cfg, big) <==> x in Seen(cfg, tree))
  }

  /** Inclusive aggregation. Outside single-tree mode, after any run: in a plain
      column a node's total is the sum of everything received for the nodes of
      its subtree; in an A column it is what was received for itself; and in
      both its children sum is the sum of its children's totals. Nodes below an
      attribute node do not count: clearing never gets to them. */
  ghost predicate Inclusive(cfg: Config, t: Tree, run: seq<Action>, x: NodeId, i: nat)
    requires i < |cfg.meta|
  {
    && CldAt(t, x, i) == Sum(Kids(Par(t), x), AllCol(t, i))
    && AllAt(t, x, i) == Accounted(cfg, t, run, x, i)
  }

  /** What was received for a node and, in a plain column, for all nodes below
      it, as far as these are seen. */
  ghost function Accounted(cfg: Config, t: Tree, run: seq<Action>, x: NodeId, i: nat): int
    requires i < |cfg.meta|
  {
    if Plain(cfg, i) then Sum(Subtree(Par(t), x), ReceivedCol(Seen(cfg, t), run, Column(i)))
    else Get(ReceivedCol(Seen(cfg, t), run, Column(i)), x)
  }

  lemma {:induction false} InclusiveTotals(cfg: Config, run: seq<Action>, x: NodeId, i: nat)
    requires Runnable(cfg, run) && !cfg.single
    requires i < |cfg.meta| && Summed(cfg, i) && x in After(cfg, run).tree
    ensures Inclusive(cfg, After(cfg, run).tree, run, x, i)
  {
    var t := After(cfg, run).tree;
    if run == [] {
      SumZero(Kids(Par(t), x), AllCol(t, i));
      SumZero(Subtree(Par(t), x), ReceivedCol(Seen(cfg, t), run, Column(i)));
    } else {
      var init, a := run[..|run| - 1], run[|run| - 1];
      if x in After(cfg, init).tree {
        InclusiveTotals(cfg, init, x, i);
      }
      if a.Put? {
        LastPut(cfg, run, init, a);
        InclusivePut(cfg, run, init, a, t, x, i);
      } else {
        forall y
          ensures Received(run, y, Column(i)) == Received(init, y, Column(i))
        {
        }
        assert ReceivedCol(Seen(cfg, t), run, Column(i)) == ReceivedCol(Seen(cfg, t), init, Column(i));
      }
    }
  }

  /** `a` is the last action of `run`, and stores a buffer. */
  ghost predicate EndsWith(cfg: Config, run: seq<Action>, init: seq<Action>, a: Action) {
    && run != [] && init == run[..|run| - 1] && a == run[|run| - 1] && a.Put?
    && Runnable(cfg, init) && Enabled(cfg, After(cfg, init), a)
  }

  lemma LastPut(cfg: Config, run: seq<Action>, init: seq<Action>, a: Action)
    requires Runnable(cfg, run) && run != [] && init == run[..|run| - 1] && a == run[|run| - 1] && a.Put?
    ensures EndsWith(cfg, run, init, a)
    ensures var u := After(cfg, init).tree;
      && Good(cfg, u) && Fits(cfg, u, a.recs)
      && After(cfg, run).tree == StoreTree(cfg, u, a.ni.running, a.recs)
  {
  }

  lemma InclusivePut(
    cfg: Config, run: seq<Action>, init: seq<Action>, a: Action, t: Tree, x: NodeId, i: nat)
    requires EndsWith(cfg, run, init, a) && !cfg.single
    requires i < |cfg.meta| && Summed(cfg, i) && x in t
    requires t == StoreTree(cfg, After(cfg, init).tree, a.ni.running, a.recs)
    requires x in After(cfg, init).tree ==> Inclusive(cfg, After(cfg, init).tree, init, x, i)
    ensures Inclusive(cfg, t, run, x, i)
  {
    var u := After(cfg, init).tree;
    assert x !in u ==> CldAt(u, x, i) == 0;
    InclusiveCld(cfg, u, a.ni.running, a.recs, x, i);
    StoreColumn(cfg, u, a.ni.running, a.recs, x, i);
    AccountedPut(cfg, run, init, a, u, t, x, i);
  }

  lemma InclusiveCld(cfg: Config, u: Tree, running: NodeId, recs: seq<Record>, x: NodeId, i: nat)
    requires Good(cfg, u) && Fits(cfg, u, recs) && !cfg.single
    requires i < |cfg.meta| && Summed(cfg, i) && x in StoreTree(cfg, u, running, recs)
    requires CldAt(u, x, i) == if x in u then Sum(Kids(Par(u), x), AllCol(u, i)) else 0
    ensures var t := StoreTree(cfg, u, running, recs);
      CldAt(t, x, i) == Sum(Kids(Par(t), x), AllCol(t, i))
  {
    StoreChildren(cfg, u, running, recs, x, i);
    InclusiveChildren(cfg, u, running, recs, x, i);
  }

  lemma InclusiveChildren(cfg: Config, u: Tree, running: NodeId, recs: seq<Record>, x: NodeId, i: nat)
    requires Good(cfg, u) && Fits(cfg, u, recs) && !cfg.single
    requires i < |cfg.meta| && Summed(cfg, i) && x in StoreTree(cfg, u, running, recs)
    ensures var t := StoreTree(cfg, u, running, recs);
      Sum(Kids(Par(t), x), AllCol(t, i))
      == (if x in u then Sum(Kids(Par(u), x), AllCol(u, i)) else 0)
         + Sum(Kids(Par(t), x), BufferGains(cfg, t, recs, i))
  {
    var t := StoreTree(cfg, u, running, recs);
    StoreExtends(cfg, u, running, recs);
    forall c | c in t
      ensures ColumnAdds(cfg, u, t, recs, c, i)
    {
      StoreColumn(cfg, u, running, recs, c, i);
    }
    ColumnSums(cfg, u, t, recs, x, i);
  }

  ghost predicate ColumnAdds(cfg: Config, u: Tree, t: Tree, recs: seq<Record>, c: NodeId, i: nat)
    requires i < |cfg.meta|
  {
    AllAt(t, c, i) == AllAt(u, c, i) + BufferGain(cfg, t, recs, c, i)
  }

  lemma ColumnSums(cfg: Config, u: Tree, t: Tree, recs: seq<Record>, x: NodeId, i: nat)
    requires WellFormed(Par(u)) && WellFormed(Par(t)) && Extends(Par(u), Par(t)) && x in t && i < |cfg.meta|
    requires forall c {:trigger ColumnAdds(cfg, u, t, recs, c, i)} :: c in t ==> ColumnAdds(cfg, u, t, recs, c, i)
    ensures Sum(Kids(Par(t), x), AllCol(t, i))
      == (if x in u then Sum(Kids(Par(u), x), AllCol(u, i)) else 0)
         + Sum(Kids(Par(t), x), BufferGains(cfg, t, recs, i))
  {
    var before, gained, after := AllCol(u, i), BufferGains(cfg, t, recs, i), AllCol(t, i);
    forall c | c in t
      ensures Get(after, c) == Get(before, c) + Get(gained, c)
    {
      assert ColumnAdds(cfg, u, t, recs, c, i);
    }
    SumStep(Par(u), Par(t), x, before, gained, after);
  }

  /** Sums over subtrees and children when a column grows along with the tree. */
  lemma SumStep(
    par: Parents, big: Parents, x: NodeId, before: map<NodeId, int>, gained: map<NodeId, int>, after: map<NodeId, int>)
    requires WellFormed(par) && WellFormed(big) && Extends(par, big) && x in big
    requires before.Keys <= par.Keys
    requires forall y :: y in big ==> Get(after, y) == Get(before, y) + Get(gained, y)
    ensures Sum(Subtree(big, x), after)
         == (if x in par then Sum(Subtree(par, x), before) else 0) + Sum(Subtree(big, x), gained)
    ensures Sum(Kids(big, x), after)
         == (if x in par then Sum(Kids(par, x), before) else 0) + Sum(Kids(big, x), gained)
  {
    SumAdd(Subtree(big, x), before, gained, after);
    SumAdd(Kids(big, x), before, gained, after);
    SumGrow(par, big, x, before);
  }

  /** What is accounted for grows with each buffer by what the buffer adds. */
  lemma AccountedPut(
    cfg: Config, run: seq<Action>, init: seq<Action>, a: Action, u: Tree, t: Tree, x: NodeId, i: nat)
    requires EndsWith(cfg, run, init, a) && u == After(cfg, init).tree && i < |cfg.meta|
    requires t == StoreTree(cfg, u, a.ni.running, a.recs) && x in t
    ensures Accounted(cfg, t, run, x, i)
         == (if x in u then Accounted(cfg, u, init, x, i) else 0) + BufferGain(cfg, t, a.recs, x, i)
  {
    var m := Column(i);
    StoreExtends(cfg, u, a.ni.running, a.recs);
    var before, after := ReceivedCol(Seen(cfg, u), init, m), ReceivedCol(Seen(cfg, t), run, m);
    var gained := SeenCol(Seen(cfg, t), a.recs, m);
    forall y
      ensures Get(after, y) == Get(before, y) + Get(gained, y)
    {
      ReceivedPut(cfg, run, init, a, u, t, y, m);
    }
    AccountedStep(cfg, run, init, a.recs, u, t, x, i);
  }

  lemma AccountedStep(
    cfg: Config, run: seq<Action>, init: seq<Action>, recs: seq<Record>, u: Tree, t: Tree, x: NodeId, i: nat)
    requires WellFormed(Par(u)) && WellFormed(Par(t)) && Extends(Par(u), Par(t)) && x in t && i < |cfg.meta|
    requires var m := Column(i);
      forall y :: Get(ReceivedCol(Seen(cfg, t), run, m), y)
               == Get(ReceivedCol(Seen(cfg, u), init, m), y) + Get(SeenCol(Seen(cfg, t), recs, m), y)
    ensures Accounted(cfg, t, run, x, i)
         == (if x in u then Accounted(cfg, u, init, x, i) else 0) + BufferGain(cfg, t, recs, x, i)
  {
    var m := Column(i);
    var before, after := ReceivedCol(Seen(cfg, u), init, m), ReceivedCol(Seen(cfg, t), run, m);
    SumStep(Par(u), Par(t), x, before, SeenCol(Seen(cfg, t), recs, m), after);
    assert x !in u ==> Get(before, x) == 0;
  }

  lemma ReceivedPut(
    cfg: Config, run: seq<Action>, init: seq<Action>, a: Action, u: Tree, t: Tree, y: NodeId, m: Measure)
    requires EndsWith(cfg, run, init, a) && u == After(cfg, init).tree
    requires t.Keys >= u.Keys && SeenStays(cfg, u, t)
    ensures Get(ReceivedCol(Seen(cfg, t), run, m), y)
         == Get(ReceivedCol(Seen(cfg, u), init, m), y) + Get(SeenCol(Seen(cfg, t), a.recs, m), y)
  {
    SeenColGet(Seen(cfg, t), a.recs, m, y);
    if y !in u {
      ReceivedKnown(cfg, init, y, m);
    }
  }

  // -------------------------------------------------- what a tree depends on

  /** What matters of a buffer and the now-info sent with it. */
  datatype Delivery = Delivery(recs: seq<Record>, running: NodeId)

  ghost function Deliveries(run: seq<Action>): seq<Delivery> {
    if run == [] then []
    else
      var a := run[|run| - 1];
      Deliveries(run[..|run| - 1]) + if a.Put? then [Delivery(a.recs, a.ni.running)] else []
  }

  /** Neither the times of the stores, nor what else the now-infos carry, nor
      look-ups in between make a difference to the tree, or to what was received. */
  lemma {:induction false} SameDeliveriesSameTree(cfg: Config, a: seq<Action>, b: seq<Action>)
    requires Runnable(cfg, a) && Runnable(cfg, b) && Deliveries(a) == Deliveries(b)
    ensures After(cfg, a).tree == After(cfg, b).tree
    decreases |a| + |b|
  {
    if a != [] && !a[|a| - 1].Put? {
      SameDeliveriesSameTree(cfg, a[..|a| - 1], b);
    } else if b != [] && !b[|b| - 1].Put? {
      SameDeliveriesSameTree(cfg, a, b[..|b| - 1]);
    } else if a != [] && b != [] {
      var i, j := a[..|a| - 1], b[..|b| - 1];
      LastDelivery(a, b);
      SameDeliveriesSameTree(cfg, i, j);
      LastPut(cfg, a, i, a[|a| - 1]);
      LastPut(cfg, b, j, b[|b| - 1]);
    }
  }

  lemma {:induction false} SameDeliveriesSameReceived(a: seq<Action>, b: seq<Action>, x: NodeId, m: Measure)
    requires Deliveries(a) == Deliveries(b)
    ensures Received(a, x, m) == Received(b, x, m)
    decreases |a| + |b|
  {
    if a != [] && !a[|a| - 1].Put? {
      SameDeliveriesSameReceived(a[..|a| - 1], b, x, m);
    } else if b != [] && !b[|b| - 1].Put? {
      SameDeliveriesSameReceived(a, b[..|b| - 1], x, m);
    } else if a != [] && b != [] {
      LastDelivery(a, b);
      SameDeliveriesSameReceived(a[..|a| - 1], b[..|b| - 1], x, m);
    }
  }

  lemma LastDelivery(a: seq<Action>, b: seq<Action>)
    requires a != [] && b != [] && a[|a| - 1].Put? && b[|b| - 1].Put? && Deliveries(a) == Deliveries(b)
    ensures Deliveries(a[..|a| - 1]) == Deliveries(b[..|b| - 1])
    ensures a[|a| - 1].recs == b[|b| - 1].recs && a[|a| - 1].ni.running == b[|b| - 1].ni.running
  {
    var s, t := Deliveries(a), Deliveries(b);
    assert s[..|s| - 1] == Deliveries(a[..|a| - 1]) && t[..|t| - 1] == Deliveries(b[..|b| - 1]);
    assert s[|s| - 1] == t[|t| - 1];
  }

  /** Call counts add up, at the nodes that are seen. */
  lemma {:induction false} CountTotals(cfg: Config, run: seq<Action>, x: NodeId)
    requires Runnable(cfg, run) && x in After(cfg, run).tree
    ensures CountAt(After(cfg, run).tree, x)
         == if x in Seen(cfg, After(cfg, run).tree) then Received(run, x, CallCount) else 0
  {
    if run != [] {
      var init, a := run[..|run| - 1], run[|run| - 1];
      var u, t := After(cfg, init).tree, After(cfg, run).tree;
      if x in u {
        CountTotals(cfg, init, x);
      }
      if a.Put? {
        LastPut(cfg, run, init, a);
        CountPut(cfg, run, init, a, u, t, x);
      }
    }
  }

  lemma CountPut(cfg: Config, run: seq<Action>, init: seq<Action>, a: Action, u: Tree, t: Tree, x: NodeId)
    requires EndsWith(cfg, run, init, a) && u == After(cfg, init).tree
    requires t == StoreTree(cfg, u, a.ni.running, a.recs) && x in t
    requires x in u ==> CountAt(u, x) == if x in Seen(cfg, u) then Received(init, x, CallCount) else 0
    ensures CountAt(t, x) == if x in Seen(cfg, t) then Received(run, x, CallCount) else 0
  {
    StoreCount(cfg, u, a.ni.running, a.recs, x);
    StoreExtends(cfg, u, a.ni.running, a.recs);
    if x !in u {
      ReceivedKnown(cfg, init, x, CallCount);
    }
  }

  lemma StoreCount(cfg: Config, tree: Tree, run: NodeId, recs: seq<Record>, x: NodeId)
    requires Good(cfg, tree) && Fits(cfg, tree, recs) && x in StoreTree(cfg, tree, run, recs)
    ensures var t := StoreTree(cfg, tree, run, recs);
      CountAt(t, x) == CountAt(tree, x) + if x in Seen(cfg, t) then LatestAmount(recs, x, CallCount) else 0
  {
    var g := Staged(cfg, tree, run, recs);
    StagedNode(cfg, tree, run, recs, x);
    AddAllValues(cfg, tree, recs);
    StagedValid(cfg, tree, run, recs);
    SettleValid(cfg, g, Collected(cfg, g));
    assert StoreTree(cfg, tree, run, recs)[x] == SettledNode(cfg, g, Collected(cfg, g), x);
  }

  ghost function LastReceived(run: seq<Action>, x: NodeId, m: Measure): int {
    if run == [] then 0
    else
      var a := run[|run| - 1];
      if a.Put? && Latest(a.recs, x).Some? then LatestAmount(a.recs, x, m)
      else LastReceived(run[..|run| - 1], x, m)
  }

  lemma StoreStatic(cfg: Config, tree: Tree, run: NodeId, recs: seq<Record>, x: NodeId, i: nat)
    requires Good(cfg, tree) && Fits(cfg, tree, recs) && !cfg.single
    requires i < |cfg.meta| && cfg.meta[i].isStatic && x in StoreTree(cfg, tree, run, recs)
    ensures var t := StoreTree(cfg, tree, run, recs);
      AllAt(t, x, i) == if x in Seen(cfg, t) && Latest(recs, x).Some? then LatestAmount(recs, x, Column(i))
                        else AllAt(tree, x, i)
  {
    var g := Staged(cfg, tree, run, recs);
    StagedNode(cfg, tree, run, recs, x);
    StagedStatic(cfg, tree, run, recs, x, i);
    AddAllValues(cfg, tree, recs);
    StagedValid(cfg, tree, run, recs);
    SettleValid(cfg, g, Collected(cfg, g));
    assert ValidNode(cfg, g, x);
    if x in tree {
      assert ValidNode(cfg, tree, x);
    }
    assert StoreTree(cfg, tree, run, recs)[x] == SettledNode(cfg, g, Collected(cfg, g), x);
  }

  /** A static column holds the last value received, at the nodes that are seen. */
  lemma {:induction false} StaticTotals(cfg: Config, run: seq<Action>, x: NodeId, i: nat)
    requires Runnable(cfg, run) && !cfg.single && x in After(cfg, run).tree
    requires i < |cfg.meta| && cfg.meta[i].isStatic
    ensures AllAt(After(cfg, run).tree, x, i)
         == if x in Seen(cfg, After(cfg, run).tree) then LastReceived(run, x, Column(i)) else 0
  {
    if run != [] {
      var init, a := run[..|run| - 1], run[|run| - 1];
      var u := After(cfg, init).tree;
      if x in u {
        StaticTotals(cfg, init, x, i);
      } else {
        LastKnown(cfg, init, x, Column(i));
      }
      if a.Put? {
        LastPut(cfg, run, init, a);
        StoreStatic(cfg, u, a.ni.running, a.recs, x, i);
        StoreExtends(cfg, u, a.ni.running, a.recs);
      }
    }
  }

  lemma {:induction false} LastKnown(cfg: Config, run: seq<Action>, x: NodeId, m: Measure)
    requires Runnable(cfg, run) && x !in After(cfg, run).tree
    ensures LastReceived(run, x, m) == 0
  {
    if run != [] {
      var init, a := run[..|run| - 1], run[|run| - 1];
      if a.Put? {
        StoreValid(cfg, After(cfg, init).tree, a.ni.running, a.recs);
        IdsAreReported(a.recs, x);
      }
      LastKnown(cfg, init, x, m);
    }
  }
}
