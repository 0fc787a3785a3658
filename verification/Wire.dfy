/** What the profiled process sends to the monitor. */
module Wire {
  type NodeId = nat
  type NameId = nat

  const ROOT: NodeId := 1

  datatype Option<+T> = None | Some(value: T)

  function Zeros(n: nat): (z: seq<int>)
    ensures |z| == n && forall i :: 0 <= i < n ==> z[i] == 0
  {
    seq(n, _ => 0)
  }

  /** One entry of a performance buffer: what happened at one call-tree node
      during one interval. */
  datatype Record = Record(name: NameId, id: NodeId, parent: NodeId, callCount: nat, values: seq<int>)

  /** Sent after the performance buffer: the node running when the buffer was
      taken, and column values among which column 1 is a later clock reading. */
  datatype NowInfo = NowInfo(running: NodeId, values: seq<int>)

  /** What can be added up over a stream of records. */
  datatype Measure = CallCount | Column(i: nat)

  function Amount(r: Record, m: Measure): int {
    match m
    case CallCount => r.callCount
    case Column(i) => if i < |r.values| then r.values[i] else 0
  }

  /** Total over all records of node `n`. */
  function Total(recs: seq<Record>, n: NodeId, m: Measure): int {
    if recs == [] then 0
    else
      var last := recs[|recs| - 1];
      Total(recs[..|recs| - 1], n, m) + if last.id == n then Amount(last, m) else 0
  }

  /** The last record of node `n`. */
  function Latest(recs: seq<Record>, n: NodeId): (r: Option<Record>)
    ensures r.Some? ==> r.value in recs && r.value.id == n
    ensures r.None? ==> forall k :: 0 <= k < |recs| ==> recs[k].id != n
  {
    if recs == [] then None
    else if recs[|recs| - 1].id == n then Some(recs[|recs| - 1])
    else Latest(recs[..|recs| - 1], n)
  }

  /** The latest value a measure was reported with; zero if never reported. */
  function LatestAmount(recs: seq<Record>, n: NodeId, m: Measure): int {
    var r := Latest(recs, n);
    if r.Some? then Amount(r.value, m) else 0
  }

  ghost predicate OneRecordPerNode(recs: seq<Record>) {
    forall i, j :: 0 <= i < j < |recs| ==> recs[i].id != recs[j].id
  }

  ghost function Ids(recs: seq<Record>): set<NodeId> {
    if recs == [] then {} else Ids(recs[..|recs| - 1]) + {recs[|recs| - 1].id}
  }

  lemma {:induction false} IdsAreReported(recs: seq<Record>, n: NodeId)
    ensures n in Ids(recs) <==> Latest(recs, n).Some?
    ensures n in Ids(recs) <==> exists k :: 0 <= k < |recs| && recs[k].id == n
  {
    if recs != [] {
      var init := recs[..|recs| - 1];
      IdsAreReported(init, n);
      if n in Ids(init) {
        var k :| 0 <= k < |init| && init[k].id == n;
        assert recs[k].id == n;
      }
      if Latest(recs, n).Some? && recs[|recs| - 1].id != n {
        assert n in Ids(init);
      }
    }
  }

  function Flatten(bufs: seq<seq<Record>>): seq<Record> {
    if bufs == [] then [] else Flatten(bufs[..|bufs| - 1]) + bufs[|bufs| - 1]
  }

  lemma {:induction false} TotalAppend(a: seq<Record>, b: seq<Record>, n: NodeId, m: Measure)
    ensures Total(a + b, n, m) == Total(a, n, m) + Total(b, n, m)
  {
    if b == [] {
      assert a + b == a;
    } else {
      assert (a + b)[..|a + b| - 1] == a + b[..|b| - 1];
      TotalAppend(a, b[..|b| - 1], n, m);
    }
  }

  lemma {:induction false} LatestAppend(a: seq<Record>, b: seq<Record>, n: NodeId)
    ensures Latest(a + b, n) == if Latest(b, n).Some? then Latest(b, n) else Latest(a, n)
  {
    if b == [] {
      assert a + b == a;
    } else {
      assert (a + b)[..|a + b| - 1] == a + b[..|b| - 1];
      LatestAppend(a, b[..|b| - 1], n);
    }
  }

  /** Rewriting one record changes only its own node's total, by the difference. */
  lemma {:induction false} TotalUpdate(recs: seq<Record>, k: nat, r: Record, n: NodeId, m: Measure)
    requires k < |recs| && r.id == recs[k].id
    ensures Total(recs[k := r], n, m)
         == Total(recs, n, m) + if n == r.id then Amount(r, m) - Amount(recs[k], m) else 0
  {
    var upd := recs[k := r];
    if k < |recs| - 1 {
      assert upd[..|upd| - 1] == recs[..|recs| - 1][k := r];
      TotalUpdate(recs[..|recs| - 1], k, r, n, m);
    } else {
      assert upd[..|upd| - 1] == recs[..|recs| - 1];
    }
  }

  lemma {:induction false} LatestUpdate(recs: seq<Record>, k: nat, r: Record, n: NodeId)
    requires k < |recs| && r.id == recs[k].id && OneRecordPerNode(recs)
    ensures Latest(recs[k := r], n) == if n == r.id then Some(r) else Latest(recs, n)
  {
    var upd := recs[k := r];
    if k < |recs| - 1 {
      assert upd[..|upd| - 1] == recs[..|recs| - 1][k := r];
      LatestUpdate(recs[..|recs| - 1], k, r, n);
    } else {
      assert upd[..|upd| - 1] == recs[..|recs| - 1];
    }
  }

  /** With one record per node nothing is lost by keeping only the latest one. */
  lemma {:induction false} TotalIsLatest(recs: seq<Record>, n: NodeId, m: Measure)
    requires OneRecordPerNode(recs)
    ensures Total(recs, n, m) == LatestAmount(recs, n, m)
  {
    if recs != [] {
      var init := recs[..|recs| - 1];
      TotalIsLatest(init, n, m);
      if recs[|recs| - 1].id == n {
        assert Latest(init, n).None?;
      }
    }
  }
}
