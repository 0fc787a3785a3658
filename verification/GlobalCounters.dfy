/** All profiled threads and the gathering store together: what the gathering
    tree shows is what the threads' own counters say. */
module GlobalCounters {
  import opened Wire
  import opened Sums
  import opened Forest
  import CT = CallTree
  import CTR = CallTreeRuns
  import opened StoreModel
  import opened TimeSlices
  import opened StoreRuns
  import opened Representations
  import EndToEnd
  import opened PathIds
  import opened GlobalModel
  import opened GlobalStores
  import opened GlobalRuns
  import opened GlobalLedger
  import opened GlobalPaths

  // ------------------------------------------------ one thread's part of a run

  /** How often the target of thread `k` has been asked. */
  function Asks(events: seq<Event>, k: nat): nat {
    if events == [] then 0
    else
      var a := events[|events| - 1];
      Asks(events[..|events| - 1], k) + if a.Receive? && a.k == k then 1 else 0
  }

  /** What an event does to thread `k`, whose target's clock stands at `clock`. */
  ghost function ActionOf(e: Event, k: nat, clock: int): Option<Action> {
    match e
    case Receive(j, b) => if j == k && b.Some? then Some(Put(clock + 1, b.value.recs, b.value.ni)) else None
    case Browse(j, time) => if j == k then Some(Look(time)) else None
    case Integrate => Some(Remove)
  }

  /** What happened to thread `k`, whose target's clock began at `clock`. */
  ghost function Log(events: seq<Event>, k: nat, clock: int): seq<Action> {
    if events == [] then []
    else
      var init := events[..|events| - 1];
      match ActionOf(events[|events| - 1], k, clock + Asks(init, k))
      case None => Log(init, k, clock)
      case Some(a) => Log(init, k, clock) + [a]
  }

  ghost predicate Moves(c: Source, d: Source, o: Option<Action>) {
    && d.cfg == c.cfg && Sound(c.cfg, c.state)
    && match o
       case None => d.state == c.state
       case Some(a) => Enabled(c.cfg, c.state, a) && d.state == Act(c.cfg, c.state, a)
  }

  lemma StepMoves(cfg: Config, s: System, e: Event, t: System, k: nat)
    requires k < |s.sources| && SourceOk(cfg, s.sources[k]) && Step(cfg, s, e, t)
    ensures |t.sources| == |s.sources| && Moves(s.sources[k], t.sources[k], ActionOf(e, k, s.sources[k].clock))
    ensures t.sources[k].clock == s.sources[k].clock + if e.Receive? && e.k == k then 1 else 0
  {
    var c, d := s.sources[k], t.sources[k];
    match e
    case Receive(j, b) =>
      if j == k && b.Some? {
        ReceiveMoves(c, b.value, Put(c.clock + 1, b.value.recs, b.value.ni), d);
      } else if j == k {
        assert d == c.(clock := c.clock + 1);
      } else {
        assert d == c;
      }
    case Browse(j, time) =>
      if j != k {
        assert d == c;
      }
    case Integrate =>
      DrainMoves(cfg, c, d);
  }

  lemma ReceiveMoves(c: Source, b: Buffer, a: Action, d: Source)
    requires Sound(c.cfg, c.state) && a == Put(c.clock + 1, b.recs, b.ni) && Enabled(c.cfg, c.state, a)
    requires d == Answered(c, Some(b))
    ensures Moves(c, d, Some(a)) && d.clock == c.clock + 1
  {
    assert d.state == Act(c.cfg, c.state, a);
  }

  lemma DrainMoves(cfg: Config, c: Source, d: Source)
    requires SourceOk(cfg, c) && d == Drained(c)
    ensures Moves(c, d, Some(Remove)) && d.clock == c.clock
  {
  }

  /** The state of a source is that after its own log. */
  ghost predicate Follows(s: Source, first: Source, events: seq<Event>, k: nat) {
    && s.cfg == first.cfg && s.clock == first.clock + Asks(events, k)
    && Runnable(s.cfg, Log(events, k, first.clock)) && s.state == After(s.cfg, Log(events, k, first.clock))
  }

  lemma LogMore(init: seq<Event>, e: Event, events: seq<Event>, k: nat, first: int, clock: int)
    requires events != [] && init == events[..|events| - 1] && e == events[|events| - 1]
    requires clock == first + Asks(init, k)
    ensures Log(events, k, first)
         == Log(init, k, first) + match ActionOf(e, k, clock) case None => [] case Some(a) => [a]
    ensures Asks(events, k) == Asks(init, k) + if e.Receive? && e.k == k then 1 else 0
  {
  }

  lemma FollowsOn(c: Source, d: Source, first: Source, init: seq<Event>, e: Event, events: seq<Event>, k: nat)
    requires events != [] && init == events[..|events| - 1] && e == events[|events| - 1]
    requires Follows(c, first, init, k) && Moves(c, d, ActionOf(e, k, c.clock))
    requires d.clock == c.clock + if e.Receive? && e.k == k then 1 else 0
    ensures Follows(d, first, events, k)
  {
    var o := ActionOf(e, k, c.clock);
    LogMore(init, e, events, k, first.clock, c.clock);
    if o.Some? {
      EndToEnd.AfterOneMore(c.cfg, Log(init, k, first.clock), o.value);
    }
  }

  /** Each thread's store goes through a run of its own. */
  lemma {:induction false} SourceIsRun(cfg: Config, states: seq<System>, events: seq<Event>, k: nat)
    requires IsRun(cfg, states, events) && k < |states[|events|].sources|
    ensures |states[0].sources| == |states[|events|].sources|
    ensures Follows(states[|events|].sources[k], states[0].sources[k], events, k)
    decreases |events|
  {
    if events != [] {
      var prev, init := states[..|events|], events[..|events| - 1];
      assert prev[0] == states[0];
      var s, e, t := prev[|init|], events[|events| - 1], states[|events|];
      SourceIsRun(cfg, prev, init, k);
      RunOk(cfg, prev, init);
      assert SourceOk(cfg, s.sources[k]);
      StepMoves(cfg, s, e, t, k);
      FollowsOn(s.sources[k], t.sources[k], states[0].sources[k], init, e, events, k);
    }
  }

  // ----------------------------------------------------- when a store can fail

  lemma {:induction false} NotFilled(cfg: Config, states: seq<System>, events: seq<Event>, k: nat)
    requires IsRun(cfg, states, events) && k < |states[|events|].sources|
    requires Disciplined(events) && !Waits(events, k)
    ensures states[|events|].sources[k].state.filled == 0
    decreases |events|
  {
    if events != [] {
      var a := events[|events| - 1];
      if !a.Integrate? {
        NotFilled(cfg, states[..|events|], events[..|events| - 1], k);
      }
    }
  }

  /** A buffer for the next time can be stored exactly if it fits the tree and no
      store or look-up since the last gathering came first with a time beyond. */
  ghost predicate FindsSlice(first: Source, s: Source, events: seq<Event>, k: nat, b: Buffer) {
    var since := Since(Log(events, k, first.clock));
    && Sound(s.cfg, s.state)
    && (Enabled(s.cfg, s.state, Put(s.clock + 1, b.recs, b.ni))
        <==> Fits(s.cfg, s.state.tree, b.recs) && (since.Some? ==> since.value <= s.clock + 1))
  }

  /** When a target is asked for data and nothing of thread `k` waits, the store
      finds the slice for the new time, as it asserts, just in this case. */
  lemma StoreFindsSlice(cfg: Config, states: seq<System>, events: seq<Event>, k: nat, b: Buffer)
    requires IsRun(cfg, states, events) && k < |states[|events|].sources|
    requires Disciplined(events) && !Waits(events, k)
    ensures |states[0].sources| == |states[|events|].sources|
    ensures FindsSlice(states[0].sources[k], states[|events|].sources[k], events, k, b)
  {
    NotFilled(cfg, states, events, k);
    SourceIsRun(cfg, states, events, k);
    var s := states[|events|].sources[k];
    SliceFound(s.cfg, Log(events, k, states[0].sources[k].clock), s.clock + 1);
  }

  /** So it is for every answer of every pass of the receiver. */
  lemma ReceiverFindsSlice(
    cfg: Config, states: seq<System>, events: seq<Event>,
    targets: seq<Target>, rounds: seq<Round>, round: Round, n: nat, k: nat, b: Buffer)
    requires IsRun(cfg, states, events) && k < |states[|events|].sources|
    requires InPass(targets, rounds, round, n, events)
    requires n < |Pass(targets, round)| && Pass(targets, round)[n].Receive? && Pass(targets, round)[n].k == k
    ensures |states[0].sources| == |states[|events|].sources|
    ensures FindsSlice(states[0].sources[k], states[|events|].sources[k], events, k, b)
  {
    PassReady(targets, rounds, round, n, events);
    StoreFindsSlice(cfg, states, events, k, b);
  }

  /** Gathering finds a thread's current slice, in whatever state, exactly if the
      first store or look-up since the last gathering was not later than now. */
  lemma GatheringFindsSlice(cfg: Config, states: seq<System>, events: seq<Event>, k: nat)
    requires IsRun(cfg, states, events) && k < |states[|events|].sources|
    ensures |states[0].sources| == |states[|events|].sources|
    ensures var s := states[|events|].sources[k];
      var since := Since(Log(events, k, states[0].sources[k].clock));
      OnTime(s) <==> since.Some? ==> since.value <= s.clock
  {
    SourceIsRun(cfg, states, events, k);
    var s := states[|events|].sources[k];
    SliceFound(s.cfg, Log(events, k, states[0].sources[k].clock), s.clock);
  }

  /** The assertion can fail: before anything was stored, a viewer looks at time
      5; then no buffer for time 1 can be stored, not even an empty one. */
  lemma AssertionFails(c: Config) returns (states: seq<System>)
    requires c.single
    ensures IsRun(c, states, [Browse(0, 5)]) && |states[1].sources| == 1 && states[1].sources[0].clock == 0
    ensures var s := states[1].sources[0];
      && Fits(s.cfg, s.state.tree, [])
      && forall b: Buffer :: !Enabled(s.cfg, s.state, Put(1, b.recs, b.ni))
  {
    var first := Source(c, State(FirstTree(c), 0, [], 0), 0);
    var s := System([first], FirstGlobal(c), []);
    assert IsRun(c, [s], []);
    RunOk(c, [s], []);
    assert SourceOk(c, first);
    var t := s.(sources := [Looked(first, 5)]);
    states := [s, t];
    assert states[..1] == [s] && [Browse(0, 5)][..0] == [];
    assert s.sources[0 := Looked(first, 5)] == [Looked(first, 5)];
    assert Step(c, s, Browse(0, 5), t);
  }

  // ------------------------------------------- what is stored, thread by thread

  /** The counters that are followed from the calls to the gathering tree. */
  predicate Followed(cfg: Config, e: Entry) {
    |cfg.meta| >= 1 && cfg.meta[0] == Metadata(true, false) && (e == Count || e == All(0))
  }

  function MeasureOf(e: Entry): Measure {
    if e == Count then CallCount else Column(0)
  }

  /** What a thread's buffers have reported about the seen nodes with one global id. */
  ghost function Tally(cfg: Config, tree: Tree, log: seq<Action>, gnid: nat, m: Measure): int {
    Sum(Sharing(tree, Seen(cfg, tree), gnid), ReceivedCol(Seen(cfg, tree), log, m))
  }

  /** A stored slice holds what its buffer reports. */
  lemma SliceTells(cfg: Config, from: Config, tree: Tree, run: NodeId, recs: seq<Record>, gnid: nat, e: Entry)
    requires Good(from, tree) && Fits(from, tree, recs) && from.meta == cfg.meta && Followed(cfg, e)
    ensures var t := StoreTree(from, tree, run, recs); var seen := Seen(from, t);
      PartGain(cfg, Part(t, StoreSlice(from, tree, run, recs)), gnid, e)
      == Sum(Sharing(t, seen, gnid), SeenCol(seen, recs, MeasureOf(e)))
  {
    var slice, t := StoreSlice(from, tree, run, recs), StoreTree(from, tree, run, recs);
    var seen := Seen(from, t);
    SliceClosed(from, tree, run, recs);
    StoreSliceWidths(from, tree, run, recs);
    forall x | x in t
      ensures Get(EntryCol(slice, e), x) == Get(SeenCol(seen, recs, MeasureOf(e)), x)
    {
      SliceReports(from, tree, run, recs, x, 0);
      SliceEntry(from, slice, x, e);
    }
    PartTells(cfg, t, slice, seen, gnid, e, SeenCol(seen, recs, MeasureOf(e)));
  }

  lemma SliceEntry(cfg: Config, slice: SliceTree, x: NodeId, e: Entry)
    requires Followed(cfg, e)
    ensures Get(EntryCol(slice, e), x) == if e == Count then SliceCount(slice, x) else SliceAll(slice, x, 0)
  {
  }

  lemma PartTells(
    cfg: Config, t: Tree, slice: SliceTree, seen: set<NodeId>, gnid: nat, e: Entry, told: map<NodeId, int>)
    requires slice.Keys <= seen && Gathers(cfg, e)
    requires forall x :: x in t ==> Get(EntryCol(slice, e), x) == Get(told, x)
    ensures PartGain(cfg, Part(t, slice), gnid, e) == Sum(Sharing(t, seen, gnid), told)
  {
    SumSame(Sharing(t, seen, gnid), EntryCol(slice, e), told);
    SumShrink(Sharing(t, seen, gnid), Sharing(t, slice.Keys, gnid), EntryCol(slice, e));
  }

  lemma StoreKeepsGnids(cfg: Config, tree: Tree, run: NodeId, recs: seq<Record>)
    requires Good(cfg, tree) && Fits(cfg, tree, recs)
    ensures forall x :: x in tree ==>
      x in StoreTree(cfg, tree, run, recs) && StoreTree(cfg, tree, run, recs)[x].gnid == tree[x].gnid
  {
    AddAllNames(cfg, tree, recs);
    var g := Staged(cfg, tree, run, recs);
    forall x | x in tree
      ensures x in g && g[x].gnid == tree[x].gnid
    {
    }
    StagedValid(cfg, tree, run, recs);
    forall x | x in g
      ensures Settle(cfg, g, Collected(cfg, g))[x].gnid == g[x].gnid
    {
    }
  }

  /** A store adds to the tally what its buffer reports. */
  lemma TallyPut(cfg: Config, log: seq<Action>, init: seq<Action>, a: Action, u: Tree, t: Tree, gnid: nat, m: Measure)
    requires EndsWith(cfg, log, init, a) && u == After(cfg, init).tree
    requires t == StoreTree(cfg, u, a.ni.running, a.recs)
    ensures Tally(cfg, t, log, gnid, m)
         == Tally(cfg, u, init, gnid, m) + Sum(Sharing(t, Seen(cfg, t), gnid), SeenCol(Seen(cfg, t), a.recs, m))
  {
    StoreExtends(cfg, u, a.ni.running, a.recs);
    StoreKeepsGnids(cfg, u, a.ni.running, a.recs);
    var before, after := ReceivedCol(Seen(cfg, u), init, m), ReceivedCol(Seen(cfg, t), log, m);
    var gained, nodes := SeenCol(Seen(cfg, t), a.recs, m), Sharing(t, Seen(cfg, t), gnid);
    forall y
      ensures Get(after, y) == Get(before, y) + Get(gained, y)
    {
      ReceivedPut(cfg, log, init, a, u, t, y, m);
    }
    SumAdd(nodes, before, gained, after);
    SharingGrows(cfg, u, t, gnid);
    SumShrink(nodes, Sharing(u, Seen(cfg, u), gnid), before);
  }

  lemma SharingGrows(cfg: Config, u: Tree, t: Tree, gnid: nat)
    requires SeenStays(cfg, u, t) && forall x :: x in u ==> x in t && t[x].gnid == u[x].gnid
    ensures Sharing(u, Seen(cfg, u), gnid) <= Sharing(t, Seen(cfg, t), gnid)
    ensures forall x :: x in Sharing(t, Seen(cfg, t), gnid) && x !in Sharing(u, Seen(cfg, u), gnid) ==> x !in Seen(cfg, u)
  {
  }

  ghost function SourceTally(s: Source, first: Source, events: seq<Event>, k: nat, gnid: nat, m: Measure): int {
    Tally(s.cfg, s.state.tree, Log(events, k, first.clock), gnid, m)
  }

  ghost function Tallies(
    sources: seq<Source>, first: seq<Source>, events: seq<Event>, gnid: nat, m: Measure): (t: seq<int>)
    requires |sources| == |first|
    ensures |t| == |sources|
    ensures forall k :: 0 <= k < |t| ==> t[k] == SourceTally(sources[k], first[k], events, k, gnid, m)
  {
    seq(|sources|, k requires 0 <= k < |sources| => SourceTally(sources[k], first[k], events, k, gnid, m))
  }

  ghost function SumSeq(s: seq<int>): int {
    if s == [] then 0 else SumSeq(s[..|s| - 1]) + s[|s| - 1]
  }

  lemma {:induction false} SumSeqUpdate(s: seq<int>, k: nat, v: int)
    requires k < |s|
    ensures SumSeq(s[k := v]) == SumSeq(s) - s[k] + v
  {
    var n, upd := |s| - 1, s[k := v];
    if k < n {
      SumSeqUpdate(s[..n], k, v);
      assert upd[..n] == s[..n][k := v];
    } else {
      assert upd[..n] == s[..n];
    }
  }

  lemma {:induction false} SumSeqZero(s: seq<int>)
    requires forall k :: 0 <= k < |s| ==> s[k] == 0
    ensures SumSeq(s) == 0
  {
    if s != [] {
      SumSeqZero(s[..|s| - 1]);
    }
  }

  /** `t` is `s`, except that entry `k` has grown by `inc`. */
  lemma SumSeqBump(s: seq<int>, t: seq<int>, k: nat, inc: int)
    requires |s| == |t| && (k < |s| || inc == 0)
    requires forall j :: 0 <= j < |s| ==> t[j] == s[j] + if j == k then inc else 0
    ensures SumSeq(t) == SumSeq(s) + inc
  {
    if k < |s| {
      SumSeqUpdate(s, k, s[k] + inc);
      assert t == s[k := s[k] + inc];
    } else {
      assert t == s;
    }
  }

  ghost predicate TallyMoves(
    before: Source, after: Source, first: Source, init: seq<Event>, events: seq<Event>,
    j: nat, gnid: nat, m: Measure, inc: int)
  {
    SourceTally(after, first, events, j, gnid, m) == SourceTally(before, first, init, j, gnid, m) + inc
  }

  /** Everything stored during a run is what the threads' buffers have reported
      about nodes that are seen. */
  lemma {:induction false} StoredIsTallied(cfg: Config, states: seq<System>, events: seq<Event>, gnid: nat, e: Entry)
    requires IsRun(cfg, states, events) && Followed(cfg, e)
    ensures |states[0].sources| == |states[|events|].sources|
    ensures var first, last := states[0].sources, states[|events|].sources;
      Stored(cfg, states, events, gnid, e) == SumSeq(Tallies(last, first, events, gnid, MeasureOf(e)))
    decreases |events|
  {
    var first := states[0].sources;
    if events == [] {
      forall k | 0 <= k < |first|
        ensures SourceTally(first[k], first[k], [], k, gnid, MeasureOf(e)) == 0
      {
        NothingTallied(first[k].cfg, first[k].state.tree, gnid, MeasureOf(e));
      }
      SumSeqZero(Tallies(first, first, [], gnid, MeasureOf(e)));
    } else {
      var prev, init := states[..|events|], events[..|events| - 1];
      var s, a, t := prev[|init|], events[|events| - 1], states[|events|];
      assert prev[0] == states[0];
      StoredIsTallied(cfg, prev, init, gnid, e);
      RunOk(cfg, prev, init);
      forall k | 0 <= k < |s.sources|
        ensures Follows(s.sources[k], first[k], init, k)
      {
        SourceIsRun(cfg, prev, init, k);
      }
      TalliesStep(cfg, s, events, t, first, gnid, e);
    }
  }

  lemma TalliesStep(
    cfg: Config, s: System, events: seq<Event>, t: System, first: seq<Source>, gnid: nat, e: Entry)
    requires SystemOk(cfg, s) && Followed(cfg, e) && |first| == |s.sources|
    requires events != [] && Step(cfg, s, events[|events| - 1], t)
    requires forall k :: 0 <= k < |s.sources| ==> Follows(s.sources[k], first[k], events[..|events| - 1], k)
    ensures |t.sources| == |s.sources|
    ensures var a := events[|events| - 1];
      SumSeq(Tallies(t.sources, first, events, gnid, MeasureOf(e)))
      == SumSeq(Tallies(s.sources, first, events[..|events| - 1], gnid, MeasureOf(e)))
         + if a.Receive? && a.b.Some? then PartGain(cfg, SourcePart(t.sources[a.k]), gnid, e) else 0
  {
    var a, init := events[|events| - 1], events[..|events| - 1];
    var k := if a.Receive? then a.k else 0;
    var inc := if a.Receive? && a.b.Some? then PartGain(cfg, SourcePart(t.sources[k]), gnid, e) else 0;
    forall j | 0 <= j < |s.sources|
      ensures TallyMoves(s.sources[j], t.sources[j], first[j], init, events, j, gnid, MeasureOf(e),
                         if j == k then inc else 0)
    {
      assert SourceOk(cfg, s.sources[j]);
      StepMoves(cfg, s, a, t, j);
      TallyStep(cfg, s.sources[j], t.sources[j], first[j], init, a, events, j, gnid, e);
      GainIs(cfg, t.sources[j], a, j, s.sources[j].clock, gnid, e);
    }
    SumSeqBump(Tallies(s.sources, first, init, gnid, MeasureOf(e)),
               Tallies(t.sources, first, events, gnid, MeasureOf(e)), k, inc);
  }

  lemma NothingTallied(cfg: Config, tree: Tree, gnid: nat, m: Measure)
    ensures Tally(cfg, tree, [], gnid, m) == 0
  {
    SumZero(Sharing(tree, Seen(cfg, tree), gnid), ReceivedCol(Seen(cfg, tree), [], m));
  }

  /** The gain of a thread's tally in one step. */
  ghost function GainOf(cfg: Config, d: Source, o: Option<Action>, gnid: nat, e: Entry): int {
    if o.Some? && o.value.Put? then PartGain(cfg, SourcePart(d), gnid, e) else 0
  }

  lemma GainIs(cfg: Config, d: Source, a: Event, j: nat, clock: int, gnid: nat, e: Entry)
    ensures GainOf(cfg, d, ActionOf(a, j, clock), gnid, e)
         == if a.Receive? && a.k == j && a.b.Some? then PartGain(cfg, SourcePart(d), gnid, e) else 0
  {
  }

  lemma TallyStep(
    cfg: Config, c: Source, d: Source, first: Source, init: seq<Event>, a: Event, events: seq<Event>,
    j: nat, gnid: nat, e: Entry)
    requires events != [] && init == events[..|events| - 1] && a == events[|events| - 1]
    requires SourceOk(cfg, c) && Followed(cfg, e) && Follows(c, first, init, j)
    requires Moves(c, d, ActionOf(a, j, c.clock))
    requires d.clock == c.clock + if a.Receive? && a.k == j then 1 else 0
    ensures TallyMoves(c, d, first, init, events, j, gnid, MeasureOf(e),
                       GainOf(cfg, d, ActionOf(a, j, c.clock), gnid, e))
  {
    var o, log, more := ActionOf(a, j, c.clock), Log(init, j, first.clock), Log(events, j, first.clock);
    LogMore(init, a, events, j, first.clock, c.clock);
    if o.Some? && o.value.Put? {
      TallyReceive(cfg, c, d, o.value, log, more, gnid, e);
    } else {
      SameReceived(log, more);
      SameTally(c.cfg, c.state.tree, log, more, gnid, MeasureOf(e));
    }
  }

  /** Only buffers count. */
  lemma SameReceived(log: seq<Action>, more: seq<Action>)
    requires more == log || (more != [] && more[..|more| - 1] == log && !more[|more| - 1].Put?)
    ensures forall x, m :: Received(more, x, m) == Received(log, x, m)
  {
  }

  lemma SameTally(cfg: Config, tree: Tree, log: seq<Action>, more: seq<Action>, gnid: nat, m: Measure)
    requires forall x, m :: Received(more, x, m) == Received(log, x, m)
    ensures Tally(cfg, tree, more, gnid, m) == Tally(cfg, tree, log, gnid, m)
  {
    assert ReceivedCol(Seen(cfg, tree), more, m) == ReceivedCol(Seen(cfg, tree), log, m);
  }

  lemma TallyReceive(
    cfg: Config, c: Source, d: Source, a: Action, log: seq<Action>, more: seq<Action>, gnid: nat, e: Entry)
    requires SourceOk(cfg, c) && a.Put? && a.time == c.clock + 1 && Followed(cfg, e)
    requires Moves(c, d, Some(a)) && d.clock == a.time && Runnable(c.cfg, log) && c.state == After(c.cfg, log)
    requires more == log + [a]
    ensures Tally(c.cfg, d.state.tree, more, gnid, MeasureOf(e))
         == Tally(c.cfg, c.state.tree, log, gnid, MeasureOf(e)) + PartGain(cfg, SourcePart(d), gnid, e)
  {
    StoredHere(c.cfg, c.state, a.time, a.recs, a.ni, d.state);
    SliceTells(cfg, c.cfg, c.state.tree, a.ni.running, a.recs, gnid, e);
    assert more[..|more| - 1] == log;
    TallyPut(c.cfg, more, log, a, c.state.tree, d.state.tree, gnid, MeasureOf(e));
  }

  // --------------------------------------------- from buffers back to the calls

  /** A context in terms of the names of its calls. */
  function Resolved(cfg: Config, q: CTR.Context): PathIds.Path {
    seq(|q|, i requires 0 <= i < |q| => cfg.nameOf(q[i]))
  }

  lemma {:induction false} NamePathResolved(cfg: Config, tree: Tree, p: CTR.Process, n: NodeId)
    requires CT.Valid(p.thread) && EndToEnd.Mirrors(tree, p) && WellFormed(Par(tree)) && n in tree
    ensures 1 <= n < |p.thread.nodes|
    ensures NamePath(cfg, tree, n) == Resolved(cfg, CTR.Path(p.thread.nodes, n))
    decreases n
  {
    var nodes := p.thread.nodes;
    assert n in Par(tree) && Hangs(Par(tree), n) && EndToEnd.SameNode(tree, nodes, n);
    if n != ROOT {
      assert CT.LinkedUp(nodes, n) && EndToEnd.SameNode(tree, nodes, tree[n].parent);
      NamePathResolved(cfg, tree, p, tree[n].parent);
    }
  }

  /** A thread's own counter for one context. */
  function Counter(trace: seq<CTR.Event>, q: CTR.Context, e: Entry): int {
    if e == Count then CTR.Calls(trace, q) else CTR.Spent(trace, q)
  }

  ghost function Counters(cols: nat, trace: seq<CTR.Event>, e: Entry): map<NodeId, int>
    requires cols >= 2
  {
    var nodes := CTR.Run(cols, trace).thread.nodes;
    map x | 1 <= x < |nodes| :: Counter(trace, CTR.Path(nodes, x), e)
  }

  /** The exposed contexts of a thread whose names hash to `gnid`. */
  ghost function Meeting(cfg: Config, trace: seq<CTR.Event>, gnid: nat): set<NodeId>
    requires |cfg.meta| >= 2
  {
    var nodes := CTR.Run(|cfg.meta|, trace).thread.nodes;
    set x | 1 <= x < |nodes| && EndToEnd.Exposed(cfg, CTR.Path(nodes, x))
            && PathHash(cfg.hash, Resolved(cfg, CTR.Path(nodes, x))) == gnid
  }

  lemma CountedAt(cfg: Config, trace: seq<CTR.Event>, x: NodeId, e: Entry)
    requires EndToEnd.Deployed(cfg) && EndToEnd.Ended(trace) && Followed(cfg, e)
    requires 1 <= x < |CTR.Run(|cfg.meta|, trace).thread.nodes|
    ensures Received(EndToEnd.Stores(|cfg.meta|, trace), x, MeasureOf(e))
         == Counter(trace, CTR.Path(CTR.Run(|cfg.meta|, trace).thread.nodes, x), e)
  {
    var p := CTR.Run(|cfg.meta|, trace);
    EndToEnd.ReceivedIsSent(cfg, trace, x, MeasureOf(e));
    CTR.LookupPath(p.thread.nodes, x);
    CTR.RunCounters(|cfg.meta|, trace, CTR.Path(p.thread.nodes, x));
    assert p.thread.front == [];
    assert CTR.Stream(p) == Flatten(p.flushed);
  }

  lemma NodesInTree(cfg: Config, trace: seq<CTR.Event>, tree: Tree)
    requires EndToEnd.Deployed(cfg) && EndToEnd.Ended(trace)
    requires EndToEnd.Mirrors(tree, CTR.Run(|cfg.meta|, trace))
    ensures forall x :: 1 <= x < |CTR.Run(|cfg.meta|, trace).thread.nodes| ==> x in tree
  {
    if trace != [] {
      forall x | 1 <= x < |CTR.Run(|cfg.meta|, trace).thread.nodes|
        ensures x in tree
      {
        EndToEnd.AllReported(|cfg.meta|, trace, x);
      }
    }
  }

  lemma MeetingIsSharing(cfg: Config, trace: seq<CTR.Event>, tree: Tree, gnid: nat)
    requires EndToEnd.Deployed(cfg) && EndToEnd.Ended(trace)
    requires EndToEnd.Mirrors(tree, CTR.Run(|cfg.meta|, trace)) && Good(cfg, tree)
    ensures Sharing(tree, Seen(cfg, tree), gnid) == Meeting(cfg, trace, gnid)
  {
    var p := CTR.Run(|cfg.meta|, trace);
    NodesInTree(cfg, trace, tree);
    forall x | x in tree
      ensures x in Sharing(tree, Seen(cfg, tree), gnid) <==> x in Meeting(cfg, trace, gnid)
    {
      EndToEnd.SeenIffExposed(cfg, tree, p, x);
      GnidIsPathHash(cfg, tree, x);
      NamePathResolved(cfg, tree, p, x);
    }
  }

  /** A thread's tally is the sum of its own counters. */
  lemma TallyIsCounted(cfg: Config, trace: seq<CTR.Event>, log: seq<Action>, gnid: nat, e: Entry)
    requires EndToEnd.Feeds(cfg, trace, log) && EndToEnd.Ended(trace) && Followed(cfg, e)
    ensures Tally(cfg, After(cfg, log).tree, log, gnid, MeasureOf(e))
         == Sum(Meeting(cfg, trace, gnid), Counters(|cfg.meta|, trace, e))
  {
    var run, tree, m := EndToEnd.Stores(|cfg.meta|, trace), After(cfg, log).tree, MeasureOf(e);
    EndToEnd.StoresRunnable(cfg, trace);
    SameDeliveriesSameTree(cfg, log, run);
    MeetingIsSharing(cfg, trace, tree, gnid);
    forall x | x in Meeting(cfg, trace, gnid)
      ensures Get(ReceivedCol(Seen(cfg, tree), log, m), x) == Get(Counters(|cfg.meta|, trace, e), x)
    {
      CountedAt(cfg, trace, x, e);
      SameDeliveriesSameReceived(log, run, x, m);
      assert x in Sharing(tree, Seen(cfg, tree), gnid);
    }
    SumSame(Meeting(cfg, trace, gnid), ReceivedCol(Seen(cfg, tree), log, m), Counters(|cfg.meta|, trace, e));
  }

  /** What each thread has counted at the given nodes of its. */
  ghost function Counted(
    sources: seq<Source>, traces: seq<seq<CTR.Event>>, nodes: seq<set<NodeId>>, e: Entry): (c: seq<int>)
    requires |sources| == |traces| == |nodes|
    requires forall k :: 0 <= k < |sources| ==> |sources[k].cfg.meta| >= 2
    ensures |c| == |sources|
    ensures forall k :: 0 <= k < |c| ==> c[k] == Sum(nodes[k], Counters(|sources[k].cfg.meta|, traces[k], e))
  {
    seq(|sources|, k requires 0 <= k < |sources| => Sum(nodes[k], Counters(|sources[k].cfg.meta|, traces[k], e)))
  }

  /** Every thread's buffers come from a profiled thread, up to its last snapshot. */
  ghost predicate AllFeed(states: seq<System>, events: seq<Event>, traces: seq<seq<CTR.Event>>)
    requires |states| == |events| + 1
  {
    var first, last := states[0].sources, states[|events|].sources;
    && |first| == |last| == |traces|
    && forall k {:trigger FeedsAt(first, last, events, traces, k)} :: 0 <= k < |last| ==>
         FeedsAt(first, last, events, traces, k)
  }

  ghost predicate FeedsAt(
    first: seq<Source>, last: seq<Source>, events: seq<Event>, traces: seq<seq<CTR.Event>>, k: nat)
    requires k < |first| == |last| == |traces|
  {
    EndToEnd.Feeds(last[k].cfg, traces[k], Log(events, k, first[k].clock)) && EndToEnd.Ended(traces[k])
  }

  /** Thread `k` is fed by a profiled thread, and `met` are its contexts with id `gnid`. */
  ghost predicate ThreadOk(
    first: Source, last: Source, events: seq<Event>, trace: seq<CTR.Event>, met: set<NodeId>,
    k: nat, gnid: nat, e: Entry)
  {
    && EndToEnd.Feeds(last.cfg, trace, Log(events, k, first.clock)) && EndToEnd.Ended(trace)
    && Follows(last, first, events, k)
    && Followed(last.cfg, e) && met == Meeting(last.cfg, trace, gnid)
  }

  lemma ThreadTally(
    first: Source, last: Source, events: seq<Event>, trace: seq<CTR.Event>, met: set<NodeId>,
    k: nat, gnid: nat, e: Entry)
    requires ThreadOk(first, last, events, trace, met, k, gnid, e)
    ensures |last.cfg.meta| >= 2
    ensures SourceTally(last, first, events, k, gnid, MeasureOf(e)) == Sum(met, Counters(|last.cfg.meta|, trace, e))
  {
    TallyIsCounted(last.cfg, trace, Log(events, k, first.clock), gnid, e);
  }

  /** The contexts of a thread that resolve to path `p`. */
  ghost function OnPath(cfg: Config, trace: seq<CTR.Event>, p: PathIds.Path): set<NodeId>
    requires |cfg.meta| >= 2
  {
    var nodes := CTR.Run(|cfg.meta|, trace).thread.nodes;
    set x | 1 <= x < |nodes| && EndToEnd.Exposed(cfg, CTR.Path(nodes, x)) && Resolved(cfg, CTR.Path(nodes, x)) == p
  }

  /** The strings hashed for a thread's contexts are among `keys`. */
  ghost predicate KeysAmong(cfg: Config, trace: seq<CTR.Event>, keys: set<string>)
    requires |cfg.meta| >= 2
  {
    var nodes := CTR.Run(|cfg.meta|, trace).thread.nodes;
    forall x :: 1 <= x < |nodes| ==> KeysOf(cfg.hash, Resolved(cfg, CTR.Path(nodes, x))) <= keys
  }

  lemma MeetingIsOnPath(cfg: Config, trace: seq<CTR.Event>, p: PathIds.Path, keys: set<string>)
    requires |cfg.meta| >= 2 && KeysAmong(cfg, trace, keys)
    requires CollisionFreeOn(cfg.hash, keys) && KeysOf(cfg.hash, p) <= keys
    ensures Meeting(cfg, trace, PathHash(cfg.hash, p)) == OnPath(cfg, trace, p)
  {
    var nodes := CTR.Run(|cfg.meta|, trace).thread.nodes;
    forall x | 1 <= x < |nodes| && PathHash(cfg.hash, Resolved(cfg, CTR.Path(nodes, x))) == PathHash(cfg.hash, p)
      ensures Resolved(cfg, CTR.Path(nodes, x)) == p
    {
      PathHashInjective(cfg.hash, keys, Resolved(cfg, CTR.Path(nodes, x)), p);
    }
  }

  /** End to end, from the calls of all threads of all targets to the gathering
      tree: after any number of rounds, with look-ups in between, the number of
      calls shown for a node, and the time in column 0, are the sums of all
      threads' own counters over all their exposed contexts with the node's name
      path; as long as the strings hashed for these paths do not collide. */
  lemma GatheredCounters(
    cfg: Config, states: seq<System>, events: seq<Event>, targets: seq<Target>, rounds: seq<Round>,
    traces: seq<seq<CTR.Event>>, nodes: seq<set<NodeId>>, keys: set<string>, d: nat, e: Entry)
    requires IsRun(cfg, states, events) && InRounds(targets, rounds, events) && AllFeed(states, events, traces)
    requires Followed(cfg, e) && d in states[|events|].g.tree && GlobalOk(cfg, states[|events|].g)
    requires var g := states[|events|].g;
      CollisionFreeOn(cfg.hash, keys) && KeysOf(cfg.hash, GlobalPath(cfg, g, d)) <= keys
    requires |nodes| == |traces| && forall k :: 0 <= k < |traces| ==>
      var from := states[|events|].sources[k].cfg;
      && |from.meta| >= 2 && KeysAmong(from, traces[k], keys)
      && nodes[k] == OnPath(from, traces[k], GlobalPath(cfg, states[|events|].g, d))
    ensures Value(states[|events|].g, d, e) == SumSeq(Counted(states[|events|].sources, traces, nodes, e))
  {
    var first, last, g := states[0].sources, states[|events|].sources, states[|events|].g;
    var gnid := g.tree[d].gnid;
    RunOk(cfg, states, events);
    EverythingGathered(cfg, states, events, targets, rounds, d, e);
    StoredIsTallied(cfg, states, events, gnid, e);
    GlobalPathHash(cfg, g, d);
    var tallies, counted := Tallies(last, first, events, gnid, MeasureOf(e)), Counted(last, traces, nodes, e);
    forall k | 0 <= k < |last|
      ensures tallies[k] == counted[k]
    {
      SourceIsRun(cfg, states, events, k);
      assert SourceOk(cfg, last[k]) && FeedsAt(first, last, events, traces, k);
      MeetingIsOnPath(last[k].cfg, traces[k], GlobalPath(cfg, g, d), keys);
      ThreadTally(first[k], last[k], events, traces[k], nodes[k], k, gnid, e);
    }
    assert tallies == counted;
  }
}
