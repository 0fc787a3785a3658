/** Where every slice stored during a run ends up. */
module GlobalLedger {
  import opened Wire
  import opened Sums
  import opened Forest
  import opened StoreModel
  import opened TimeSlices
  import opened StoreRuns
  import opened Representations
  import opened PathIds
  import opened GlobalModel
  import opened GlobalStores
  import opened GlobalRuns

  /** What was stored for a global id, whether or not it was gathered later. */
  ghost function Stored(cfg: Config, states: seq<System>, events: seq<Event>, gnid: nat, e: Entry): int
    requires IsRun(cfg, states, events)
    decreases |events|
  {
    if events == [] then 0
    else
      var a := events[|events| - 1];
      Stored(cfg, states[..|events|], events[..|events| - 1], gnid, e)
      + if a.Receive? && a.b.Some? then PartGain(cfg, SourcePart(states[|events|].sources[a.k]), gnid, e) else 0
  }

  /** What slices held that were still current when their target was asked again. */
  ghost function Lost(cfg: Config, states: seq<System>, events: seq<Event>, gnid: nat, e: Entry): int
    requires IsRun(cfg, states, events)
    decreases |events|
  {
    if events == [] then 0
    else
      var a := events[|events| - 1];
      Lost(cfg, states[..|events|], events[..|events| - 1], gnid, e)
      + if a.Receive? then PartGain(cfg, SourcePart(states[|events| - 1].sources[a.k]), gnid, e) else 0
  }

  ghost function Waiting(cfg: Config, s: System, gnid: nat, e: Entry): int {
    PartsGain(cfg, SourceParts(s.sources), gnid, e)
  }

  lemma EmptyGain(cfg: Config, p: Part, gnid: nat, e: Entry)
    requires p.slice == map[]
    ensures PartGain(cfg, p, gnid, e) == 0
  {
    assert Sharing(p.tree, p.slice.Keys, gnid) == {};
  }

  lemma {:induction false} EmptyGains(cfg: Config, parts: seq<Part>, gnid: nat, e: Entry)
    requires forall k :: 0 <= k < |parts| ==> parts[k].slice == map[]
    ensures PartsGain(cfg, parts, gnid, e) == 0
  {
    if parts != [] {
      EmptyGains(cfg, parts[..|parts| - 1], gnid, e);
      EmptyGain(cfg, parts[|parts| - 1], gnid, e);
    }
  }

  lemma {:induction false} GainUpdate(cfg: Config, parts: seq<Part>, k: nat, p: Part, gnid: nat, e: Entry)
    requires k < |parts|
    ensures PartsGain(cfg, parts[k := p], gnid, e)
         == PartsGain(cfg, parts, gnid, e) - PartGain(cfg, parts[k], gnid, e) + PartGain(cfg, p, gnid, e)
    decreases |parts|
  {
    var upd, n := parts[k := p], |parts| - 1;
    if k < n {
      assert upd[..n] == parts[..n][k := p];
      GainUpdate(cfg, parts[..n], k, p, gnid, e);
    } else {
      assert upd[..n] == parts[..n];
    }
  }

  lemma ReceiveWaiting(cfg: Config, s: System, k: nat, b: Option<Buffer>, t: System, gnid: nat, e: Entry)
    requires SystemOk(cfg, s) && Step(cfg, s, Receive(k, b), t)
    ensures Waiting(cfg, t, gnid, e)
         == Waiting(cfg, s, gnid, e) - PartGain(cfg, SourcePart(s.sources[k]), gnid, e)
            + if b.Some? then PartGain(cfg, SourcePart(t.sources[k]), gnid, e) else 0
  {
    var p := SourcePart(t.sources[k]);
    PartsReplaced(s.sources, k, t.sources[k]);
    GainUpdate(cfg, SourceParts(s.sources), k, p, gnid, e);
    if b.None? {
      assert SourceOk(cfg, s.sources[k]);
      LaterEmpty(s.sources[k]);
      EmptyGain(cfg, p, gnid, e);
    }
  }

  lemma PartsReplaced(sources: seq<Source>, k: nat, s: Source)
    requires k < |sources|
    ensures SourceParts(sources[k := s]) == SourceParts(sources)[k := SourcePart(s)]
  {
  }

  lemma LookWaiting(cfg: Config, s: System, k: nat, time: int, t: System, gnid: nat, e: Entry)
    requires SystemOk(cfg, s) && Step(cfg, s, Browse(k, time), t)
    ensures Waiting(cfg, t, gnid, e) == Waiting(cfg, s, gnid, e)
  {
    assert SourceOk(cfg, s.sources[k]);
    LookedOk(cfg, s.sources[k], time);
    assert SourceParts(t.sources) == SourceParts(s.sources);
  }

  lemma IntegrateWaiting(cfg: Config, s: System, t: System, gnid: nat, e: Entry)
    requires SystemOk(cfg, s) && Step(cfg, s, Integrate, t)
    ensures Waiting(cfg, t, gnid, e) == 0
  {
    EmptyGains(cfg, SourceParts(t.sources), gnid, e);
  }

  /** The ledger balances after every run: whatever was stored has been gathered
      exactly once, or waits to be gathered, or was lost when its target was
      asked again before anything was gathered. */
  lemma {:induction false} Ledger(cfg: Config, states: seq<System>, events: seq<Event>, gnid: nat, e: Entry)
    requires IsRun(cfg, states, events)
    ensures Stored(cfg, states, events, gnid, e)
         == PartsGain(cfg, Merged(states, events), gnid, e) + Waiting(cfg, states[|events|], gnid, e)
            + Lost(cfg, states, events, gnid, e)
    decreases |events|
  {
    if events == [] {
      EmptyGains(cfg, SourceParts(states[0].sources), gnid, e);
    } else {
      var prev, init := states[..|events|], events[..|events| - 1];
      var s, a, t := prev[|init|], events[|events| - 1], states[|events|];
      Ledger(cfg, prev, init, gnid, e);
      RunOk(cfg, prev, init);
      match a
      case Receive(k, b) =>
        ReceiveWaiting(cfg, s, k, b, t, gnid, e);
        assert Merged(states, events) == Merged(prev, init);
      case Browse(k, time) =>
        LookWaiting(cfg, s, k, time, t, gnid, e);
        assert Merged(states, events) == Merged(prev, init);
      case Integrate =>
        IntegrateWaiting(cfg, s, t, gnid, e);
        PartsGainAppend(cfg, Merged(prev, init), SourceParts(s.sources), gnid, e);
    }
  }

  /** The last thing that happened to thread `k`, look-ups aside, was a store. */
  predicate Waits(events: seq<Event>, k: nat) {
    events != [] &&
    match events[|events| - 1]
    case Integrate => false
    case Receive(j, b) => if j == k then b.Some? else Waits(events[..|events| - 1], k)
    case Browse(_, _) => Waits(events[..|events| - 1], k)
  }

  /** No target is asked again while a slice of its waits. */
  predicate Disciplined(events: seq<Event>) {
    events == [] ||
    var a, init := events[|events| - 1], events[..|events| - 1];
    Disciplined(init) && (a.Receive? ==> !Waits(init, a.k))
  }

  lemma {:induction false} NothingCurrent(cfg: Config, states: seq<System>, events: seq<Event>, k: nat)
    requires IsRun(cfg, states, events) && k < |states[|events|].sources| && !Waits(events, k)
    ensures Current(states[|events|].sources[k]) == map[]
    decreases |events|
  {
    if events != [] {
      var prev, init := states[..|events|], events[..|events| - 1];
      var s, a := prev[|init|], events[|events| - 1];
      RunOk(cfg, prev, init);
      assert SourceOk(cfg, s.sources[k]);
      if a.Receive? && a.k == k {
        LaterEmpty(s.sources[k]);
      } else if !a.Integrate? {
        NothingCurrent(cfg, prev, init, k);
        if a.Browse? && a.k == k {
          LookedOk(cfg, s.sources[k], a.time);
        }
      }
    }
  }

  lemma NothingWaiting(cfg: Config, states: seq<System>, events: seq<Event>, gnid: nat, e: Entry)
    requires IsRun(cfg, states, events) && forall k :: !Waits(events, k)
    ensures Waiting(cfg, states[|events|], gnid, e) == 0
  {
    var parts := SourceParts(states[|events|].sources);
    forall k | 0 <= k < |parts|
      ensures parts[k].slice == map[]
    {
      NothingCurrent(cfg, states, events, k);
    }
    EmptyGains(cfg, parts, gnid, e);
  }

  lemma {:induction false} NothingLost(cfg: Config, states: seq<System>, events: seq<Event>, gnid: nat, e: Entry)
    requires IsRun(cfg, states, events) && Disciplined(events)
    ensures Lost(cfg, states, events, gnid, e) == 0
    decreases |events|
  {
    if events != [] {
      var prev, init := states[..|events|], events[..|events| - 1];
      var s, a := prev[|init|], events[|events| - 1];
      NothingLost(cfg, prev, init, gnid, e);
      if a.Receive? {
        NothingCurrent(cfg, prev, init, a.k);
        EmptyGain(cfg, SourcePart(s.sources[a.k]), gnid, e);
      }
    }
  }

  // --------------------------------------------------- rounds of the receiver

  /** A target's threads, as indexes of sources. */
  type Target = seq<nat>

  /** What one pass over the targets brings: nothing from a target that is not
      asked, or else a buffer or none for each of its threads. */
  type Round = seq<Option<seq<Option<Buffer>>>>

  predicate RoundFits(targets: seq<Target>, round: Round) {
    |round| == |targets| && forall i :: 0 <= i < |round| && round[i].Some? ==> |round[i].value| == |targets[i]|
  }

  /** Every thread belongs to one target, and once only. */
  predicate Apart(targets: seq<Target>) {
    forall i, a, j, b | 0 <= i < |targets| && 0 <= a < |targets[i]| && 0 <= j < |targets| && 0 <= b < |targets[j]| ::
      targets[i][a] == targets[j][b] ==> i == j && a == b
  }

  function Asked(target: Target, buffers: seq<Option<Buffer>>): (events: seq<Event>)
    requires |buffers| == |target|
  {
    if target == [] then []
    else
      var n := |target| - 1;
      Asked(target[..n], buffers[..n]) + [Receive(target[n], buffers[n])]
  }

  /** One pass: the targets are asked one after the other. */
  function Pass(targets: seq<Target>, round: Round): seq<Event>
    requires RoundFits(targets, round)
  {
    if targets == [] then []
    else
      var n := |targets| - 1;
      Pass(targets[..n], round[..n]) + if round[n].None? then [] else Asked(targets[n], round[n].value)
  }

  /** The receiver's loop: after each pass everything is gathered. */
  function Rounds(targets: seq<Target>, rounds: seq<Round>): seq<Event>
    requires forall r :: r in rounds ==> RoundFits(targets, r)
  {
    if rounds == [] then []
    else Rounds(targets, rounds[..|rounds| - 1]) + Pass(targets, rounds[|rounds| - 1]) + [Integrate]
  }

  function WithoutLooks(events: seq<Event>): seq<Event> {
    if events == [] then []
    else
      var a := events[|events| - 1];
      WithoutLooks(events[..|events| - 1]) + if a.Browse? then [] else [a]
  }

  /** Look-ups aside, the events are rounds of the receiver. */
  ghost predicate InRounds(targets: seq<Target>, rounds: seq<Round>, events: seq<Event>) {
    && Apart(targets) && (forall r :: r in rounds ==> RoundFits(targets, r))
    && WithoutLooks(events) == Rounds(targets, rounds)
  }

  /** Nothing is current. */
  ghost predicate Idle(events: seq<Event>) {
    forall k :: !Waits(events, k)
  }

  /** Only threads of the given ones answer, and none of them twice. */
  ghost predicate OnceEach(events: seq<Event>, threads: set<nat>) {
    events == [] ||
    var a, init := events[|events| - 1], events[..|events| - 1];
    a.Receive? && a.k in threads && OnceEach(init, threads - {a.k})
  }

  lemma {:induction false} LooksIgnored(events: seq<Event>, k: nat)
    ensures Waits(WithoutLooks(events), k) == Waits(events, k)
    ensures Disciplined(WithoutLooks(events)) == Disciplined(events)
  {
    if events != [] {
      var a, init, w := events[|events| - 1], events[..|events| - 1], WithoutLooks(events);
      LooksIgnored(init, k);
      if a.Receive? {
        LooksIgnored(init, a.k);
      }
      if !a.Browse? {
        assert w[..|w| - 1] == WithoutLooks(init) && w[|w| - 1] == a;
      } else {
        assert w == WithoutLooks(init);
      }
    }
  }

  lemma {:induction false} OnceEachMore(events: seq<Event>, small: set<nat>, big: set<nat>)
    requires OnceEach(events, small) && small <= big
    ensures OnceEach(events, big)
  {
    if events != [] {
      var k := events[|events| - 1].k;
      OnceEachMore(events[..|events| - 1], small - {k}, big - {k});
    }
  }

  lemma {:induction false} OnceEachAppend(a: seq<Event>, b: seq<Event>, s: set<nat>, t: set<nat>)
    requires OnceEach(a, s) && OnceEach(b, t) && s !! t
    ensures OnceEach(a + b, s + t)
  {
    if b == [] {
      assert a + b == a;
      OnceEachMore(a, s, s + t);
    } else {
      var k, init := b[|b| - 1].k, b[..|b| - 1];
      assert (a + b)[..|a + b| - 1] == a + init;
      OnceEachAppend(a, init, s, t - {k});
      assert s + (t - {k}) == s + t - {k};
    }
  }

  ghost function Threads(target: Target): set<nat> {
    set k | k in target
  }

  ghost function AllThreads(targets: seq<Target>): set<nat> {
    if targets == [] then {} else AllThreads(targets[..|targets| - 1]) + Threads(targets[|targets| - 1])
  }

  lemma {:induction false} AllThreadsAre(targets: seq<Target>)
    ensures forall k :: k in AllThreads(targets) ==> exists i :: 0 <= i < |targets| && k in targets[i]
  {
    if targets != [] {
      var init := targets[..|targets| - 1];
      AllThreadsAre(init);
      forall k | k in AllThreads(targets)
        ensures exists i :: 0 <= i < |targets| && k in targets[i]
      {
        if k in AllThreads(init) {
          var i :| 0 <= i < |init| && k in init[i];
          assert k in targets[i];
        } else {
          assert k in targets[|targets| - 1];
        }
      }
    }
  }

  lemma {:induction false} AskedOnce(target: Target, buffers: seq<Option<Buffer>>)
    requires |buffers| == |target| && forall a, b :: 0 <= a < b < |target| ==> target[a] != target[b]
    ensures OnceEach(Asked(target, buffers), Threads(target))
  {
    if target != [] {
      var n := |target| - 1;
      AskedOnce(target[..n], buffers[..n]);
      assert Threads(target) - {target[n]} == Threads(target[..n]) by {
        assert target == target[..n] + [target[n]];
      }
      var events := Asked(target, buffers);
      assert events[..|events| - 1] == Asked(target[..n], buffers[..n]);
    }
  }

  lemma {:induction false} PassOnce(targets: seq<Target>, round: Round)
    requires Apart(targets) && RoundFits(targets, round)
    ensures OnceEach(Pass(targets, round), AllThreads(targets))
  {
    if targets != [] {
      var n := |targets| - 1;
      var init, last := targets[..n], targets[n];
      ApartInit(targets);
      PassOnce(init, round[..n]);
      if round[n].None? {
        assert Pass(targets, round) == Pass(init, round[..n]);
        OnceEachMore(Pass(init, round[..n]), AllThreads(init), AllThreads(targets));
      } else {
        AskedOnce(last, round[n].value);
        OnceEachAppend(Pass(init, round[..n]), Asked(last, round[n].value), AllThreads(init), Threads(last));
      }
    }
  }

  lemma ApartInit(targets: seq<Target>)
    requires Apart(targets) && targets != []
    ensures var n := |targets| - 1;
      && Apart(targets[..n]) && AllThreads(targets[..n]) !! Threads(targets[n])
      && forall a, b :: 0 <= a < b < |targets[n]| ==> targets[n][a] != targets[n][b]
  {
    var n := |targets| - 1;
    var init := targets[..n];
    forall i, a, j, b |
      0 <= i < |init| && 0 <= a < |init[i]| && 0 <= j < |init| && 0 <= b < |init[j]| && init[i][a] == init[j][b]
      ensures i == j && a == b
    {
      assert init[i] == targets[i] && init[j] == targets[j];
    }
    AllThreadsAre(init);
    forall k | k in AllThreads(init)
      ensures k !in Threads(targets[n])
    {
      var i :| 0 <= i < |init| && k in init[i];
      var a :| 0 <= a < |targets[i]| && targets[i][a] == k;
    }
  }

  /** From an idle state, a pass asks no target while a slice of its waits. */
  lemma {:induction false} PassDisciplined(before: seq<Event>, events: seq<Event>, threads: set<nat>)
    requires Disciplined(before) && Idle(before) && OnceEach(events, threads)
    ensures Disciplined(before + events)
    ensures forall k :: Waits(before + events, k) ==> k in threads
  {
    var all := before + events;
    if events == [] {
      assert all == before;
    } else {
      var init, a := events[..|events| - 1], events[|events| - 1];
      PassDisciplined(before, init, threads - {a.k});
      assert all[..|all| - 1] == before + init;
    }
  }

  /** However many rounds there are, and whatever they bring. */
  lemma {:induction false} RoundsIdle(targets: seq<Target>, rounds: seq<Round>)
    requires Apart(targets) && forall r :: r in rounds ==> RoundFits(targets, r)
    ensures Disciplined(Rounds(targets, rounds)) && Idle(Rounds(targets, rounds))
  {
    if rounds != [] {
      var init, last := rounds[..|rounds| - 1], rounds[|rounds| - 1];
      RoundsIdle(targets, init);
      PassOnce(targets, last);
      PassDisciplined(Rounds(targets, init), Pass(targets, last), AllThreads(targets));
      var all := Rounds(targets, rounds);
      assert all[..|all| - 1] == Rounds(targets, init) + Pass(targets, last);
    }
  }

  /** The receiver never asks a target whose last slice has not been gathered. */
  lemma ReceiverDisciplined(targets: seq<Target>, rounds: seq<Round>, events: seq<Event>)
    requires InRounds(targets, rounds, events)
    ensures Disciplined(events) && Idle(events)
  {
    RoundsIdle(targets, rounds);
    forall k
      ensures !Waits(events, k)
    {
      LooksIgnored(events, k);
    }
    LooksIgnored(events, 0);
  }

  /** Look-ups aside, the events are rounds of the receiver and the first `n`
      answers of the pass after them. */
  ghost predicate InPass(targets: seq<Target>, rounds: seq<Round>, round: Round, n: nat, events: seq<Event>) {
    && Apart(targets) && (forall r :: r in rounds ==> RoundFits(targets, r)) && RoundFits(targets, round)
    && n <= |Pass(targets, round)|
    && WithoutLooks(events) == Rounds(targets, rounds) + Pass(targets, round)[..n]
  }

  lemma {:induction false} OnceEachPrefix(events: seq<Event>, threads: set<nat>, n: nat)
    requires OnceEach(events, threads) && n < |events|
    ensures events[n].Receive? && events[n].k in threads
    ensures OnceEach(events[..n], threads - {events[n].k})
  {
    var init, k := events[..|events| - 1], events[|events| - 1].k;
    if n < |init| {
      OnceEachPrefix(init, threads - {k}, n);
      assert init[..n] == events[..n];
      OnceEachMore(events[..n], threads - {k} - {events[n].k}, threads - {events[n].k});
    }
  }

  /** In the middle of a pass too, the thread whose answer comes next has nothing
      waiting. */
  lemma PassReady(targets: seq<Target>, rounds: seq<Round>, round: Round, n: nat, events: seq<Event>)
    requires InPass(targets, rounds, round, n, events) && n < |Pass(targets, round)|
    ensures Disciplined(events)
    ensures Pass(targets, round)[n].Receive? && !Waits(events, Pass(targets, round)[n].k)
  {
    var pass, all := Pass(targets, round), AllThreads(targets);
    RoundsIdle(targets, rounds);
    PassOnce(targets, round);
    OnceEachPrefix(pass, all, n);
    PassDisciplined(Rounds(targets, rounds), pass[..n], all - {pass[n].k});
    LooksIgnored(events, pass[n].k);
  }

  /** Conservation: after any number of rounds, with look-ups in between, each
      global node holds exactly what was ever stored for its global id. */
  lemma EverythingGathered(
    cfg: Config, states: seq<System>, events: seq<Event>, targets: seq<Target>, rounds: seq<Round>, d: nat, e: Entry)
    requires IsRun(cfg, states, events) && InRounds(targets, rounds, events)
    requires d in states[|events|].g.tree
    ensures var g := states[|events|].g;
      Value(g, d, e) == Stored(cfg, states, events, g.tree[d].gnid, e)
  {
    var gnid := states[|events|].g.tree[d].gnid;
    ReceiverDisciplined(targets, rounds, events);
    GlobalHolds(cfg, states, events, d, e);
    Ledger(cfg, states, events, gnid, e);
    NothingLost(cfg, states, events, gnid, e);
    NothingWaiting(cfg, states, events, gnid, e);
  }

  /** And nothing was ever stored for a global id without a node. */
  lemma NothingElseStored(
    cfg: Config, states: seq<System>, events: seq<Event>, targets: seq<Target>, rounds: seq<Round>, gnid: nat, e: Entry)
    requires IsRun(cfg, states, events) && InRounds(targets, rounds, events)
    requires !Known(states[|events|].g, gnid)
    ensures Stored(cfg, states, events, gnid, e) == 0
  {
    ReceiverDisciplined(targets, rounds, events);
    GlobalNodes(cfg, states, events);
    AbsentGain(cfg, Merged(states, events), gnid, e);
    Ledger(cfg, states, events, gnid, e);
    NothingLost(cfg, states, events, gnid, e);
    NothingWaiting(cfg, states, events, gnid, e);
  }

  // ------------------------------------------- what a stored slice holds

  /** A slice in terms of the buffer it came from: calls and column sums of
      every node in it; nothing was reported about or below any other node that
      is seen. */
  lemma SliceReports(cfg: Config, tree: Tree, run: NodeId, recs: seq<Record>, x: NodeId, i: nat)
    requires Good(cfg, tree) && Fits(cfg, tree, recs) && x in StoreTree(cfg, tree, run, recs)
    requires i < |cfg.meta| && Summed(cfg, i)
    ensures var slice, t := StoreSlice(cfg, tree, run, recs), StoreTree(cfg, tree, run, recs);
      && SliceAll(slice, x, i) == BufferGain(cfg, t, recs, x, i)
      && SliceCount(slice, x) == Get(SeenCol(Seen(cfg, t), recs, CallCount), x)
  {
    var g := Staged(cfg, tree, run, recs);
    StagedValid(cfg, tree, run, recs);
    SettleValid(cfg, g, Collected(cfg, g));
    StagedTemps(cfg, tree, run, recs, x, i);
    GainIsBufferGain(cfg, tree, run, recs, x, i);
    SameSeen(cfg, g, StoreTree(cfg, tree, run, recs));
    StagedReports(cfg, g, Collected(cfg, g), recs, x, i);
  }

  lemma StagedReports(cfg: Config, g: Tree, c: set<NodeId>, recs: seq<Record>, x: NodeId, i: nat)
    requires x in g && i < |cfg.meta|
    requires BufferGain(cfg, g, recs, x, i) == if x in c then Gain(cfg, g, c, x, i) else 0
    requires x in c ==> x in Seen(cfg, g) && g[x].tempCount == LatestAmount(recs, x, CallCount)
    requires x in Seen(cfg, g) && x !in c ==> Latest(recs, x).None?
    ensures SliceAll(SettledSlices(cfg, g, c, g.Keys), x, i) == BufferGain(cfg, g, recs, x, i)
    ensures SliceCount(SettledSlices(cfg, g, c, g.Keys), x) == Get(SeenCol(Seen(cfg, g), recs, CallCount), x)
  {
    SeenColGet(Seen(cfg, g), recs, CallCount, x);
  }

  /** Only the root has global id 1. */
  lemma RootShare(cfg: Config, src: Tree, keys: set<NodeId>)
    requires WellFormed(Par(src)) && GnidsOk(cfg, src) && Unreserved(src)
    ensures Sharing(src, keys, 1) == if ROOT in keys then {ROOT} else {}
  {
    assert ROOT in Par(src);
    assert GnidOk(cfg, src, ROOT);
  }

  /** What a buffer reports in column `i` about nodes that are seen. */
  ghost function Told(cfg: Config, t: Tree, recs: seq<Record>, i: nat): int {
    Sum(Ids(recs), SeenCol(Seen(cfg, t), recs, Column(i)))
  }

  /** A stored slice holds, for the gathering root and a plain column, the sum
      of all these values. */
  lemma RootHoldsAll(cfg: Config, tree: Tree, run: NodeId, recs: seq<Record>, i: nat)
    requires Good(cfg, tree) && Fits(cfg, tree, recs) && Unreserved(StoreTree(cfg, tree, run, recs))
    requires i < |cfg.meta| && Plain(cfg, i)
    ensures var t := StoreTree(cfg, tree, run, recs);
      PartGain(cfg, Part(t, StoreSlice(cfg, tree, run, recs)), 1, All(i)) == Told(cfg, t, recs, i)
  {
    var slice, t := StoreSlice(cfg, tree, run, recs), StoreTree(cfg, tree, run, recs);
    StoreExtends(cfg, tree, run, recs);
    assert ROOT in Par(t);
    SliceReports(cfg, tree, run, recs, ROOT, i);
    RootGain(cfg, t, slice, i);
    WholeSum(Par(t), Ids(recs), SeenCol(Seen(cfg, t), recs, Column(i)));
  }

  lemma WholeSum(par: Parents, ids: set<NodeId>, d: map<NodeId, int>)
    requires WellFormed(par) && ids <= par.Keys && d.Keys <= ids
    ensures Sum(Subtree(par, ROOT), d) == Sum(ids, d)
  {
    forall x | x in par
      ensures Under(par, ROOT, x)
    {
      UnderRoot(par, x);
    }
    SumShrink(Subtree(par, ROOT), ids, d);
  }

  lemma RootGain(cfg: Config, src: Tree, slice: SliceTree, i: nat)
    requires WellFormed(Par(src)) && GnidsOk(cfg, src) && Unreserved(src)
    requires i < |cfg.meta| && Plain(cfg, i)
    ensures PartGain(cfg, Part(src, slice), 1, All(i)) == SliceAll(slice, ROOT, i)
  {
    RootShare(cfg, src, slice.Keys);
    if ROOT in slice {
      SumPull({ROOT}, EntryCol(slice, All(i)), ROOT);
      assert {ROOT} - {ROOT} == {};
    }
  }

  /** Everything the buffers of a run reported in column `i` about nodes that are
      seen: those without an attribute node above them. */
  ghost function Reported(cfg: Config, states: seq<System>, events: seq<Event>, i: nat): int
    requires IsRun(cfg, states, events)
    decreases |events|
  {
    if events == [] then 0
    else
      var a := events[|events| - 1];
      Reported(cfg, states[..|events|], events[..|events| - 1], i)
      + if a.Receive? && a.b.Some? then
          var s := states[|events|].sources[a.k];
          Told(s.cfg, s.state.tree, a.b.value.recs, i)
        else 0
  }

  lemma StoredAtRoot(cfg: Config, s: Source, b: Buffer, r: Source, i: nat)
    requires SourceOk(cfg, s) && Enabled(s.cfg, s.state, Put(s.clock + 1, b.recs, b.ni))
    requires r == Answered(s, Some(b)) && Unreserved(r.state.tree) && i < |cfg.meta| && Plain(cfg, i)
    ensures PartGain(cfg, SourcePart(r), 1, All(i)) == Told(s.cfg, r.state.tree, b.recs, i)
  {
    StoredHere(s.cfg, s.state, s.clock + 1, b.recs, b.ni, r.state);
    RootHoldsAll(s.cfg, s.state.tree, b.ni.running, b.recs, i);
  }

  lemma {:induction false} StoredIsReported(cfg: Config, states: seq<System>, events: seq<Event>, i: nat)
    requires IsRun(cfg, states, events) && i < |cfg.meta| && Plain(cfg, i)
    ensures Stored(cfg, states, events, 1, All(i)) == Reported(cfg, states, events, i)
    decreases |events|
  {
    if events != [] {
      var prev, init := states[..|events|], events[..|events| - 1];
      var s, a, t := prev[|init|], events[|events| - 1], states[|events|];
      StoredIsReported(cfg, prev, init, i);
      RunOk(cfg, prev, init);
      if a.Receive? && a.b.Some? {
        assert SourceOk(cfg, s.sources[a.k]);
        StoredAtRoot(cfg, s.sources[a.k], a.b.value, t.sources[a.k], i);
      }
    }
  }

  /** End to end: after any number of rounds the gathering root's total in a
      plain column is the sum of every value that any thread of any target ever
      reported in it about a node that is seen. */
  lemma RootTotal(
    cfg: Config, states: seq<System>, events: seq<Event>, targets: seq<Target>, rounds: seq<Round>, i: nat)
    requires IsRun(cfg, states, events) && InRounds(targets, rounds, events) && i < |cfg.meta| && Plain(cfg, i)
    ensures Value(states[|events|].g, 1, All(i)) == Reported(cfg, states, events, i)
  {
    RunOk(cfg, states, events);
    var g := states[|events|].g;
    assert 1 in g.tree && Placed(cfg.hash, g, 1);
    EverythingGathered(cfg, states, events, targets, rounds, 1, All(i));
    StoredIsReported(cfg, states, events, i);
  }
}
