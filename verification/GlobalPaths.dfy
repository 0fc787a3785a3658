/** Which nodes of the sources meet in one global node: those with its name path. */
module GlobalPaths {
  import opened Wire
  import opened Forest
  import opened StoreModel
  import opened PathIds
  import opened GlobalModel
  import opened GlobalRuns

  /** The names on the way from the gathering root down to node `d`. */
  ghost function GlobalPath(cfg: Config, g: Global, d: nat): Path
    requires GlobalOk(cfg, g) && d in g.tree
    decreases d
  {
    assert Placed(cfg.hash, g, d);
    if d == 1 then [] else GlobalPath(cfg, g, g.tree[d].parent) + [g.tree[d].name]
  }

  lemma {:induction false} GlobalPathHash(cfg: Config, g: Global, d: nat)
    requires GlobalOk(cfg, g) && d in g.tree
    ensures g.tree[d].gnid == PathHash(cfg.hash, GlobalPath(cfg, g, d))
    decreases d
  {
    assert Placed(cfg.hash, g, d);
    if d != 1 {
      var p := GlobalPath(cfg, g, d);
      GlobalPathHash(cfg, g, g.tree[d].parent);
      assert p[..|p| - 1] == GlobalPath(cfg, g, g.tree[d].parent);
    }
  }

  /** The strings hashed for one gathering node and one source node. */
  ghost function PairKeys(cfg: Config, g: Global, d: nat, from: Config, src: Tree, x: NodeId): set<string>
    requires GlobalOk(cfg, g) && d in g.tree && WellFormed(Par(src)) && x in src
  {
    KeysOf(cfg.hash, GlobalPath(cfg, g, d)) + KeysOf(cfg.hash, NamePath(from, src, x))
  }

  /** In every reachable state the nodes of a source that are gathered into a
      node are exactly those with the same path, whatever thread or target the
      source is. */
  lemma MeetsByPath(cfg: Config, g: Global, d: nat, from: Config, src: Tree, x: NodeId)
    requires GlobalOk(cfg, g) && d in g.tree
    requires WellFormed(Par(src)) && GnidsOk(from, src) && from.hash == cfg.hash && x in src
    requires CollisionFreeOn(cfg.hash, PairKeys(cfg, g, d, from, src, x))
    ensures src[x].gnid == g.tree[d].gnid <==> NamePath(from, src, x) == GlobalPath(cfg, g, d)
  {
    GlobalPathHash(cfg, g, d);
    GnidIsPathHash(from, src, x);
    if src[x].gnid == g.tree[d].gnid {
      PathHashInjective(cfg.hash, PairKeys(cfg, g, d, from, src, x), NamePath(from, src, x), GlobalPath(cfg, g, d));
    }
  }

  /** Different nodes of the gathering tree have different paths. */
  lemma OneNodePerPath(cfg: Config, states: seq<System>, events: seq<Event>, c: nat, d: nat)
    requires IsRun(cfg, states, events)
    requires c in states[|events|].g.tree && d in states[|events|].g.tree
    ensures GlobalOk(cfg, states[|events|].g)
    ensures var g := states[|events|].g; GlobalPath(cfg, g, c) == GlobalPath(cfg, g, d) <==> c == d
  {
    RunOk(cfg, states, events);
    var g := states[|events|].g;
    GlobalPathHash(cfg, g, c);
    GlobalPathHash(cfg, g, d);
    OneNodePerGnid(cfg, g, c, d);
  }

  /** Numbers are given out densely from 2, to different global ids, and a
      parent's is smaller than its children's. */
  lemma Numbering(cfg: Config, states: seq<System>, events: seq<Event>, a: nat, b: nat)
    requires IsRun(cfg, states, events)
    ensures var g := states[|events|].g;
      && (forall n :: 2 <= n <= g.seqNum <==> n != 1 && n in g.tree)
      && (forall n :: 2 <= n <= g.seqNum ==> g.tree[n].gnid in g.seqOf && g.seqOf[g.tree[n].gnid] == n)
      && (a in g.seqOf && b in g.seqOf && g.seqOf[a] == g.seqOf[b] ==> a == b)
      && (a in g.tree && a != 1 ==> 1 <= g.tree[a].parent < a)
  {
    RunOk(cfg, states, events);
    var g := states[|events|].g;
    assert a in g.seqOf ==> Numbered(g, a);
    assert b in g.seqOf ==> Numbered(g, b);
    assert a in g.tree ==> Placed(cfg.hash, g, a);
    forall n | 2 <= n <= g.seqNum
      ensures g.tree[n].gnid in g.seqOf && g.seqOf[g.tree[n].gnid] == n
    {
      assert Placed(cfg.hash, g, n);
    }
  }
}
