/** Whole runs of several threads feeding one gathering tree. */
module GlobalRuns {
  import opened Wire
  import opened Sums
  import opened Forest
  import opened StoreModel
  import opened TimeSlices
  import opened StoreRuns
  import opened Representations
  import opened PathIds
  import opened GlobalModel
  import opened GlobalStores

  /** One thread's store; `clock` is the current time number of its target. */
  datatype Source = Source(cfg: Config, state: State, clock: int)

  datatype System = System(sources: seq<Source>, g: Global, slices: seq<Slice>)

  datatype Buffer = Buffer(recs: seq<Record>, ni: NowInfo)

  /** A target is asked for data, with or without a buffer for thread `k` as the
      answer; or a viewer asks for a slice of thread `k`; or everything is gathered. */
  datatype Event = Receive(k: nat, b: Option<Buffer>) | Browse(k: nat, time: int) | Integrate

  ghost function Current(s: Source): SliceTree {
    CurrentSlice(s.state.slices, s.state.start, s.clock)
  }

  ghost function SourcePart(s: Source): Part {
    Part(s.state.tree, Current(s))
  }

  ghost function SourceParts(sources: seq<Source>): (parts: seq<Part>)
    ensures |parts| == |sources| && forall k :: 0 <= k < |parts| ==> parts[k] == SourcePart(sources[k])
  {
    seq(|sources|, k requires 0 <= k < |sources| => SourcePart(sources[k]))
  }

  ghost predicate SourceOk(cfg: Config, s: Source) {
    && s.cfg.meta == cfg.meta && s.cfg.hash == cfg.hash && s.cfg.single
    && Sound(s.cfg, s.state)
    && (s.state.slices != [] && s.state.filled > 0 ==> s.state.start + s.state.filled <= s.clock + 1)
    && Gatherable(cfg, s.cfg, s.state.tree, Current(s))
  }

  /** The slice for the current time can be found or made. */
  ghost predicate OnTime(s: Source) {
    s.state.slices == [] || s.state.start <= s.clock
  }

  ghost function Answered(s: Source, b: Option<Buffer>): Source
    requires Sound(s.cfg, s.state)
    requires b.Some? ==> Enabled(s.cfg, s.state, Put(s.clock + 1, b.value.recs, b.value.ni))
  {
    var t := s.clock + 1;
    match b
    case None => s.(clock := t)
    case Some(buf) => s.(clock := t, state := Act(s.cfg, s.state, Put(t, buf.recs, buf.ni)))
  }

  ghost function Looked(s: Source, time: int): Source
    requires Sound(s.cfg, s.state)
  {
    s.(state := Act(s.cfg, s.state, Look(time)))
  }

  ghost function Drained(s: Source): Source {
    s.(state := s.state.(slices := [], filled := 0))
  }

  /** One step; it presupposes that no node is given one of the two reserved ids. */
  ghost predicate Step(cfg: Config, s: System, e: Event, t: System) {
    match e
    case Receive(k, b) =>
      && k < |s.sources| && Sound(s.sources[k].cfg, s.sources[k].state)
      && (b.Some? ==> Enabled(s.sources[k].cfg, s.sources[k].state,
                              Put(s.sources[k].clock + 1, b.value.recs, b.value.ni)))
      && Unreserved(Answered(s.sources[k], b).state.tree)
      && t == s.(sources := s.sources[k := Answered(s.sources[k], b)])
    case Browse(k, time) =>
      && k < |s.sources| && Sound(s.sources[k].cfg, s.sources[k].state)
      && t == s.(sources := s.sources[k := Looked(s.sources[k], time)])
    case Integrate =>
      && |t.sources| == |s.sources|
      && (forall k :: 0 <= k < |s.sources| ==> OnTime(s.sources[k]))
      && (forall k :: 0 <= k < |s.sources| ==> t.sources[k] == Drained(s.sources[k]))
      && |t.slices| == |s.slices| + 1 && t.slices[..|s.slices|] == s.slices
      && Gathered(cfg, s.g, map[], t.g, t.slices[|s.slices|].tree, SourceParts(s.sources))
  }

  ghost predicate Initial(cfg: Config, s: System) {
    && s.g == FirstGlobal(cfg) && s.slices == []
    && forall k :: 0 <= k < |s.sources| ==>
         var c := s.sources[k].cfg;
         && c.meta == cfg.meta && c.hash == cfg.hash && c.single
         && s.sources[k].state == State(FirstTree(c), 0, [], 0)
  }

  /** `states` are the states that a system goes through. */
  ghost predicate IsRun(cfg: Config, states: seq<System>, events: seq<Event>)
    decreases |events|
  {
    && |states| == |events| + 1
    && if events == [] then Initial(cfg, states[0])
       else && IsRun(cfg, states[..|events|], events[..|events| - 1])
            && Step(cfg, states[|events| - 1], events[|events| - 1], states[|events|])
  }

  // ------------------------------------------------------------- invariants

  ghost predicate SystemOk(cfg: Config, s: System) {
    && (forall k {:trigger SourceOk(cfg, s.sources[k])} :: 0 <= k < |s.sources| ==> SourceOk(cfg, s.sources[k]))
    && GlobalOk(cfg, s.g) && AllWidths(cfg, s.slices)
    && (forall j :: 0 <= j < |s.slices| ==> s.slices[j].tree.Keys <= s.g.tree.Keys)
  }

  lemma FirstSourceOk(cfg: Config, s: Source)
    requires s.cfg.meta == cfg.meta && s.cfg.hash == cfg.hash && s.cfg.single
    requires s.state == State(FirstTree(s.cfg), 0, [], 0)
    ensures SourceOk(cfg, s)
  {
  }

  lemma ReceivedOk(cfg: Config, s: Source, b: Option<Buffer>)
    requires SourceOk(cfg, s)
    requires b.Some? ==> Enabled(s.cfg, s.state, Put(s.clock + 1, b.value.recs, b.value.ni))
    requires Unreserved(Answered(s, b).state.tree)
    ensures var r := Answered(s, b);
      && SourceOk(cfg, r)
      && Current(r) == if b.None? then map[]
                       else StoreSlice(s.cfg, s.state.tree, b.value.ni.running, b.value.recs)
  {
    if b.Some? {
      AnsweredOk(cfg, s, b.value, Answered(s, b));
    } else {
      LaterEmpty(s);
    }
  }

  lemma AnsweredOk(cfg: Config, s: Source, b: Buffer, r: Source)
    requires SourceOk(cfg, s) && Enabled(s.cfg, s.state, Put(s.clock + 1, b.recs, b.ni))
    requires r == Answered(s, Some(b)) && Unreserved(r.state.tree)
    ensures SourceOk(cfg, r) && Current(r) == StoreSlice(s.cfg, s.state.tree, b.ni.running, b.recs)
  {
    StoredHere(s.cfg, s.state, s.clock + 1, b.recs, b.ni, r.state);
    FreshSliceOk(cfg, s.cfg, s.state.tree, b.ni.running, b.recs);
  }

  /** The slice for a later time than that of the last store is empty. */
  lemma LaterEmpty(s: Source)
    requires Sound(s.cfg, s.state)
    requires s.state.slices != [] && s.state.filled > 0 ==> s.state.start + s.state.filled <= s.clock + 1
    ensures Current(s.(clock := s.clock + 1)) == map[]
  {
  }

  /** Looking at a slice changes no tree, and the current slice at most from
      missing to empty. */
  lemma LookedOk(cfg: Config, s: Source, time: int)
    requires SourceOk(cfg, s)
    ensures SourceOk(cfg, Looked(s, time)) && SourcePart(Looked(s, time)) == SourcePart(s)
  {
    var r, n := Looked(s, time), Upto(StartAt(s.state, time), time + 1);
    assert r.state.slices == Padded(s.state.slices, n);
    PaddedSame(s.state.slices, n, s.state.start, r.state.start, s.clock);
  }

  lemma PaddedSame(slices: seq<Slice>, n: nat, start: int, started: int, clock: int)
    requires slices != [] ==> started == start
    ensures CurrentSlice(Padded(slices, n), started, clock) == CurrentSlice(slices, start, clock)
  {
  }

  lemma FreshSliceOk(cfg: Config, from: Config, tree: Tree, run: NodeId, recs: seq<Record>)
    requires Good(from, tree) && Fits(from, tree, recs) && from.meta == cfg.meta && from.hash == cfg.hash
    requires Unreserved(StoreTree(from, tree, run, recs))
    ensures Gatherable(cfg, from, StoreTree(from, tree, run, recs), StoreSlice(from, tree, run, recs))
  {
    StoreExtends(from, tree, run, recs);
    SliceClosed(from, tree, run, recs);
    StoreSliceWidths(from, tree, run, recs);
    ClosedGatherable(cfg, from, StoreTree(from, tree, run, recs), StoreSlice(from, tree, run, recs));
  }

  lemma ClosedGatherable(cfg: Config, from: Config, tree: Tree, slice: SliceTree)
    requires Good(from, tree) && from.meta == cfg.meta && from.hash == cfg.hash && Unreserved(tree)
    requires ClosedIn(Par(tree), slice.Keys) && SliceWidths(from, slice)
    ensures Gatherable(cfg, from, tree, slice)
  {
    assert Par(tree).Keys == tree.Keys;
  }

  /** A buffer stored at time `t` is in the slice for that time. */
  lemma StoredHere(cfg: Config, s: State, t: int, recs: seq<Record>, ni: NowInfo, r: State)
    requires Sound(cfg, s) && Enabled(cfg, s, Put(t, recs, ni)) && r == Act(cfg, s, Put(t, recs, ni))
    ensures CurrentSlice(r.slices, r.start, t) == StoreSlice(cfg, s.tree, ni.running, recs)
    ensures r.tree == StoreTree(cfg, s.tree, ni.running, recs)
    ensures r.slices != [] && r.start <= t && r.start + r.filled == t + 1
  {
    PutFilled(cfg, s, t, recs, ni);
    InSlice(r, t, StoreSlice(cfg, s.tree, ni.running, recs));
  }

  lemma InSlice(r: State, t: int, tree: SliceTree)
    requires r.start <= t && t - r.start < |r.slices| && r.slices[t - r.start].tree == tree
    ensures CurrentSlice(r.slices, r.start, t) == tree
  {
  }

  lemma DrainedOk(cfg: Config, s: Source)
    requires SourceOk(cfg, s)
    ensures SourceOk(cfg, Drained(s)) && Current(Drained(s)) == map[]
  {
  }

  lemma StepOk(cfg: Config, s: System, e: Event, t: System)
    requires SystemOk(cfg, s) && Step(cfg, s, e, t)
    ensures SystemOk(cfg, t)
  {
    match e
    case Receive(k, b) =>
      assert SourceOk(cfg, s.sources[k]);
      ReceivedOk(cfg, s.sources[k], b);
      forall j | 0 <= j < |t.sources|
        ensures SourceOk(cfg, t.sources[j])
      {
        assert SourceOk(cfg, s.sources[j]);
      }
    case Browse(k, time) =>
      forall j | 0 <= j < |t.sources|
        ensures SourceOk(cfg, t.sources[j])
      {
        assert SourceOk(cfg, s.sources[j]);
        LookedOk(cfg, s.sources[j], time);
      }
    case Integrate =>
      forall k | 0 <= k < |t.sources|
        ensures SourceOk(cfg, t.sources[k])
      {
        assert SourceOk(cfg, s.sources[k]);
        DrainedOk(cfg, s.sources[k]);
      }
      forall j | 0 <= j < |t.slices|
        ensures SliceWidths(cfg, t.slices[j].tree) && t.slices[j].tree.Keys <= t.g.tree.Keys
      {
        assert j < |s.slices| ==> t.slices[j] == t.slices[..|s.slices|][j];
      }
  }

  lemma {:induction false} RunOk(cfg: Config, states: seq<System>, events: seq<Event>)
    requires IsRun(cfg, states, events)
    ensures SystemOk(cfg, states[|events|])
    decreases |events|
  {
    if events == [] {
      FirstGlobalOk(cfg);
      forall k | 0 <= k < |states[0].sources|
        ensures SourceOk(cfg, states[0].sources[k])
      {
        FirstSourceOk(cfg, states[0].sources[k]);
      }
    } else {
      RunOk(cfg, states[..|events|], events[..|events| - 1]);
      StepOk(cfg, states[|events| - 1], events[|events| - 1], states[|events|]);
    }
  }

  // ------------------------------------------------- what the tree adds up to

  /** All the slices gathered during a run. */
  ghost function Merged(states: seq<System>, events: seq<Event>): seq<Part>
    requires |states| == |events| + 1
    decreases |events|
  {
    if events == [] then []
    else Merged(states[..|events|], events[..|events| - 1])
         + if events[|events| - 1].Integrate? then SourceParts(states[|events| - 1].sources) else []
  }

  lemma {:induction false} PartsGainAppend(cfg: Config, a: seq<Part>, b: seq<Part>, gnid: nat, e: Entry)
    ensures PartsGain(cfg, a + b, gnid, e) == PartsGain(cfg, a, gnid, e) + PartsGain(cfg, b, gnid, e)
    ensures AppearsIn(a + b, gnid) <==> AppearsIn(a, gnid) || AppearsIn(b, gnid)
    decreases |b|
  {
    if b == [] {
      assert a + b == a;
    } else {
      assert (a + b)[..|a + b| - 1] == a + b[..|b| - 1];
      PartsGainAppend(cfg, a, b[..|b| - 1], gnid, e);
    }
  }

  lemma {:induction false} StaticGain(cfg: Config, parts: seq<Part>, gnid: nat, e: Entry)
    requires !Gathers(cfg, e)
    ensures PartsGain(cfg, parts, gnid, e) == 0
  {
    if parts != [] {
      StaticGain(cfg, parts[..|parts| - 1], gnid, e);
    }
  }

  lemma OntoEntry(cfg: Config, a: SliceTree, u: SliceTree, d: nat, e: Entry)
    requires SliceWidths(cfg, a) && SliceWidths(cfg, u)
    ensures SliceValue(cfg, Onto(cfg, a, u), d, e)
         == if Gathers(cfg, e) || d !in u then SliceValue(cfg, a, d, e) + SliceValue(cfg, u, d, e)
            else SliceValue(cfg, u, d, e)
  {
  }

  /** A global node holds what the gathered slices hold for its global id, and
      so does the merge of the gathering store's own slices. */
  ghost predicate HoldsAt(cfg: Config, g: Global, merge: SliceTree, parts: seq<Part>, d: nat, e: Entry)
    requires d in g.tree
  {
    && Value(g, d, e) == PartsGain(cfg, parts, g.tree[d].gnid, e)
    && Value(g, d, e) == SliceValue(cfg, merge, d, e)
  }

  /** There is a node for every global id gathered, and none besides the root. */
  ghost predicate NodesOf(g: Global, parts: seq<Part>) {
    && (forall gnid {:trigger Known(g, gnid)} :: AppearsIn(parts, gnid) ==> Known(g, gnid))
    && (forall d {:trigger g.tree[d].gnid} :: d in g.tree && d != 1 ==> AppearsIn(parts, g.tree[d].gnid))
  }

  lemma KnownNode(cfg: Config, g: Global, gnid: nat)
    requires GlobalOk(cfg, g) && Known(g, gnid)
    ensures exists d :: d in g.tree && g.tree[d].gnid == gnid
  {
    assert gnid in g.seqOf ==> Numbered(g, gnid);
    assert 1 in g.tree && Placed(cfg.hash, g, 1);
    var d := if gnid in g.seqOf then g.seqOf[gnid] else 1;
    assert d in g.tree && g.tree[d].gnid == gnid;
  }

  lemma IntegrateNodes(
    cfg: Config, g: Global, h: Global, u: SliceTree, before: seq<Part>, parts: seq<Part>)
    requires NodesOf(g, before) && Gathered(cfg, g, map[], h, u, parts) && GlobalOk(cfg, g)
    ensures NodesOf(h, before + parts)
  {
    forall gnid | AppearsIn(before + parts, gnid)
      ensures Known(h, gnid)
    {
      PartsGainAppend(cfg, before, parts, gnid, Count);
      assert AppearsIn(before, gnid) ==> Known(g, gnid);
      assert AppearsIn(parts, gnid) ==> HasNode(h, u, gnid);
    }
    forall d | d in h.tree && d != 1
      ensures AppearsIn(before + parts, h.tree[d].gnid)
    {
      PartsGainAppend(cfg, before, parts, h.tree[d].gnid, Count);
      assert AppearsIn(parts, h.tree[d].gnid) || d in g.tree;
    }
  }

  lemma IntegrateHolds(
    cfg: Config, g: Global, h: Global, merge: SliceTree, u: SliceTree,
    before: seq<Part>, parts: seq<Part>, d: nat, e: Entry)
    requires GlobalOk(cfg, g) && NodesOf(g, before)
    requires SliceWidths(cfg, merge) && merge.Keys <= g.tree.Keys
    requires Gathered(cfg, g, map[], h, u, parts) && d in h.tree
    requires d in g.tree ==> HoldsAt(cfg, g, merge, before, d, e)
    ensures HoldsAt(cfg, h, Onto(cfg, merge, u), before + parts, d, e)
  {
    var gnid := h.tree[d].gnid;
    assert GainsAt(cfg, g, map[], h, u, parts, d, e);
    PartsGainAppend(cfg, before, parts, gnid, e);
    OntoEntry(cfg, merge, u, d, e);
    if !Gathers(cfg, e) {
      StaticGain(cfg, parts, gnid, e);
      StaticGain(cfg, before, gnid, e);
    }
    if d !in g.tree {
      NewcomerAbsent(cfg, g, h, before, d);
      AbsentGain(cfg, before, gnid, e);
    }
  }

  lemma NewcomerAbsent(cfg: Config, g: Global, h: Global, before: seq<Part>, d: nat)
    requires GlobalOk(cfg, g) && GlobalOk(cfg, h) && Grows(g, h) && NodesOf(g, before)
    requires d in h.tree && d !in g.tree
    ensures !AppearsIn(before, h.tree[d].gnid)
  {
    var gnid := h.tree[d].gnid;
    if Known(g, gnid) {
      KnownNode(cfg, g, gnid);
      var c :| c in g.tree && g.tree[c].gnid == gnid;
      OneNodePerGnid(cfg, h, c, d);
      assert false;
    }
  }

  lemma {:induction false} MergeKeys(cfg: Config, slices: seq<Slice>, keys: set<nat>)
    requires AllWidths(cfg, slices) && forall j :: 0 <= j < |slices| ==> slices[j].tree.Keys <= keys
    ensures Merge(cfg, slices).Keys <= keys
  {
    if slices != [] {
      MergeKeys(cfg, slices[..|slices| - 1], keys);
    }
  }

  lemma {:induction false} GlobalNodes(cfg: Config, states: seq<System>, events: seq<Event>)
    requires IsRun(cfg, states, events)
    ensures NodesOf(states[|events|].g, Merged(states, events))
    decreases |events|
  {
    if events != [] {
      var s, e, t := states[|events| - 1], events[|events| - 1], states[|events|];
      GlobalNodes(cfg, states[..|events|], events[..|events| - 1]);
      RunOk(cfg, states[..|events|], events[..|events| - 1]);
      var before := Merged(states[..|events|], events[..|events| - 1]);
      if e.Integrate? {
        IntegrateNodes(cfg, s.g, t.g, t.slices[|s.slices|].tree, before, SourceParts(s.sources));
      } else {
        assert Merged(states, events) == before;
      }
    }
  }

  lemma StepHolds(cfg: Config, s: System, t: System, before: seq<Part>, d: nat, e: Entry)
    requires SystemOk(cfg, s) && SystemOk(cfg, t) && Step(cfg, s, Integrate, t)
    requires NodesOf(s.g, before) && d in t.g.tree
    requires d in s.g.tree ==> HoldsAt(cfg, s.g, Merge(cfg, s.slices), before, d, e)
    ensures HoldsAt(cfg, t.g, Merge(cfg, t.slices), before + SourceParts(s.sources), d, e)
  {
    MergeKeys(cfg, s.slices, s.g.tree.Keys);
    IntegrateHolds(cfg, s.g, t.g, Merge(cfg, s.slices), t.slices[|s.slices|].tree,
                   before, SourceParts(s.sources), d, e);
  }

  /** Conservation: after any run, each number a global node keeps is the sum of
      what all gathered slices held for the nodes with its global id, and equals
      the merge of the gathering store's own slices. */
  lemma {:induction false} GlobalHolds(cfg: Config, states: seq<System>, events: seq<Event>, d: nat, e: Entry)
    requires IsRun(cfg, states, events)
    requires d in states[|events|].g.tree
    ensures AllWidths(cfg, states[|events|].slices)
    ensures var t := states[|events|];
      HoldsAt(cfg, t.g, Merge(cfg, t.slices), Merged(states, events), d, e)
    decreases |events|
  {
    RunOk(cfg, states, events);
    if events != [] {
      var prev, init := states[..|events|], events[..|events| - 1];
      var s, t := prev[|init|], states[|events|];
      RunOk(cfg, prev, init);
      if d in s.g.tree {
        GlobalHolds(cfg, prev, init, d, e);
      }
      if events[|events| - 1].Integrate? {
        GlobalNodes(cfg, prev, init);
        StepHolds(cfg, s, t, Merged(prev, init), d, e);
      } else {
        assert Merged(states, events) == Merged(prev, init);
      }
    }
  }
}
