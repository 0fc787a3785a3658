/** The square panel: a rectangle per call-tree node, children side by side in
    their parent's, by turns left to right and top to bottom. */
module PanelSquares {
  import opened Wire

  datatype Node = Node(id: nat, value: real, children: seq<Node>)

  datatype Rect = Rect(x: real, y: real, w: real, h: real)

  /** A rectangle drawn for the node reached from the root by taking the given
      children in turn. */
  datatype Drawn = Drawn(path: seq<nat>, node: nat, rect: Rect)

  function SumValues(nodes: seq<Node>): real {
    if nodes == [] then 0.0 else SumValues(nodes[..|nodes| - 1]) + nodes[|nodes| - 1].value
  }

  /** The value that stands for the whole rectangle. */
  function Whole(n: Node): real {
    if n.value > SumValues(n.children) then n.value else SumValues(n.children)
  }

  /** The share `p` of a rectangle that begins at share `psum`. */
  function Strip(r: Rect, depth: nat, psum: real, p: real): Rect {
    if depth % 2 == 0 then r.(x := r.x + r.w * psum, w := r.w * p)
    else r.(y := r.y + r.h * psum, h := r.h * p)
  }

  /** Leaves a border of 2 all around. */
  function Shrunk(r: Rect): Rect {
    Rect(r.x + 2.0, r.y + 2.0, r.w - 4.0, r.h - 4.0)
  }

  /** What is drawn for a node and below it, in drawing order. */
  function Layout(n: Node, r: Rect, depth: nat, maxDepth: nat, path: seq<nat>): seq<Drawn>
    decreases n, |n.children| + 1
  {
    if depth >= maxDepth then []
    else [Drawn(path, n.id, r)] + LayoutFrom(n, r, depth, maxDepth, path, 0, 0.0)
  }

  /** What is drawn for the children from `k` on. When the whole is zero every
      share is not a number, and no child is large enough to be drawn. */
  function LayoutFrom(
    n: Node, r: Rect, depth: nat, maxDepth: nat, path: seq<nat>, k: nat, psum: real): seq<Drawn>
    requires k <= |n.children|
    decreases n, |n.children| - k
  {
    if k == |n.children| || Whole(n) == 0.0 then []
    else
      var p := n.children[k].value / Whole(n);
      var next := Shrunk(Strip(r, depth, psum, p));
      (if next.w > 2.0 && next.h > 2.0 then Layout(n.children[k], next, depth + 1, maxDepth, path + [k]) else [])
      + LayoutFrom(n, r, depth, maxDepth, path, k + 1, psum + p)
  }

  method Draw(n: Node, r: Rect, depth: nat, maxDepth: nat, path: seq<nat>) returns (drawn: seq<Drawn>)
    ensures drawn == Layout(n, r, depth, maxDepth, path)
    decreases n
  {
    if depth >= maxDepth {
      return [];
    }
    drawn := [Drawn(path, n.id, r)];
    var allval, values := 0.0, [];
    for k := 0 to |n.children|
      invariant allval == SumValues(n.children[..k]) && |values| == k
      invariant forall j :: 0 <= j < k ==> values[j] == n.children[j].value
    {
      SumNext(n.children, k);
      values := values + [n.children[k].value];
      allval := allval + values[k];
    }
    assert n.children[..|n.children|] == n.children;
    if n.value > allval {
      allval := n.value;
    }
    var psum, k := 0.0, 0;
    while k < |n.children| && allval != 0.0
      invariant 0 <= k <= |n.children|
      invariant Layout(n, r, depth, maxDepth, path) == drawn + LayoutFrom(n, r, depth, maxDepth, path, k, psum)
    {
      var p := values[k] / allval;
      var next := Shrunk(Strip(r, depth, psum, p));
      ghost var before, rest := drawn, LayoutFrom(n, r, depth, maxDepth, path, k + 1, psum + p);
      var below := [];
      if next.w > 2.0 && next.h > 2.0 {
        below := Draw(n.children[k], next, depth + 1, maxDepth, path + [k]);
      }
      drawn := drawn + below;
      FromUnfolds(n, r, depth, maxDepth, path, k, psum, p, next);
      Regroup(before, below, rest);
      psum := psum + p;
      k := k + 1;
    }
  }

  lemma SumNext(nodes: seq<Node>, k: nat)
    requires k < |nodes|
    ensures SumValues(nodes[..k + 1]) == SumValues(nodes[..k]) + nodes[k].value
  {
    assert nodes[..k + 1][..k] == nodes[..k];
  }

  lemma Regroup(a: seq<Drawn>, b: seq<Drawn>, c: seq<Drawn>)
    ensures a + (b + c) == a + b + c
  {
  }

  // ------------------------------------------------------------- properties

  ghost predicate NonNegative(n: Node) {
    n.value >= 0.0 && forall k :: 0 <= k < |n.children| ==> NonNegative(n.children[k])
  }

  predicate Inside(a: Rect, b: Rect) {
    && b.x <= a.x && a.x + a.w <= b.x + b.w
    && b.y <= a.y && a.y + a.h <= b.y + b.h
  }

  /** Nothing of one lies within the other. */
  predicate Apart(a: Rect, b: Rect) {
    || a.x + a.w <= b.x || b.x + b.w <= a.x
    || a.y + a.h <= b.y || b.y + b.h <= a.y
  }

  predicate Proper(r: Rect) {
    r.w >= 0.0 && r.h >= 0.0
  }

  ghost predicate AllInside(drawn: seq<Drawn>, r: Rect, path: seq<nat>) {
    forall i :: 0 <= i < |drawn| ==> Proper(drawn[i].rect) && Inside(drawn[i].rect, r) && path <= drawn[i].path
  }

  /** Of any two rectangles the later one lies inside the earlier if it belongs
      to a descendant, and apart from it otherwise. */
  ghost predicate Nested(drawn: seq<Drawn>) {
    forall i, j :: 0 <= i < j < |drawn| ==>
      if drawn[i].path < drawn[j].path then Inside(drawn[j].rect, drawn[i].rect)
      else Apart(drawn[i].rect, drawn[j].rect) && !(drawn[j].path <= drawn[i].path)
  }

  lemma Scale(w: real, a: real, b: real)
    requires w >= 0.0 && a <= b
    ensures w * a <= w * b
  {
  }

  lemma {:induction false} SumSteps(n: Node, k: nat)
    requires NonNegative(n) && k <= |n.children|
    ensures 0.0 <= SumValues(n.children[..k]) <= SumValues(n.children) <= Whole(n)
    ensures k < |n.children| ==>
      SumValues(n.children[..k + 1]) == SumValues(n.children[..k]) + n.children[k].value
    decreases |n.children| - k
  {
    var c := n.children;
    assert c[..|c|] == c;
    if k < |c| {
      assert c[..k + 1][..k] == c[..k];
      SumSteps(n, k + 1);
    }
    SumNonNegative(n, k);
  }

  lemma {:induction false} SumNonNegative(n: Node, k: nat)
    requires NonNegative(n) && k <= |n.children|
    ensures SumValues(n.children[..k]) >= 0.0
  {
    if k > 0 {
      SumNonNegative(n, k - 1);
      assert n.children[..k][..k - 1] == n.children[..k - 1];
    }
  }

  /** The share of the children before `k`. */
  ghost function Before(n: Node, k: nat): real
    requires k <= |n.children| && Whole(n) != 0.0
  {
    SumValues(n.children[..k]) / Whole(n)
  }

  lemma Shares(n: Node, k: nat)
    requires NonNegative(n) && k <= |n.children| && Whole(n) != 0.0
    ensures 0.0 <= Before(n, k) <= 1.0
    ensures k < |n.children| ==>
      && Before(n, k + 1) == Before(n, k) + n.children[k].value / Whole(n)
      && n.children[k].value / Whole(n) >= 0.0
  {
    SumSteps(n, k);
    if k < |n.children| {
      Quotients(SumValues(n.children[..k]), n.children[k].value, SumValues(n.children[..k + 1]), Whole(n));
    } else {
      Quotients(SumValues(n.children[..k]), 0.0, SumValues(n.children[..k]), Whole(n));
    }
  }

  lemma Quotients(s: real, v: real, t: real, all: real)
    requires all > 0.0 && 0.0 <= s <= all && v >= 0.0 && t == s + v
    ensures 0.0 <= s / all <= 1.0 && v / all >= 0.0
    ensures t / all == s / all + v / all
  {
  }

  /** What is left of a rectangle from share `psum` on. */
  ghost function Rest(r: Rect, depth: nat, psum: real): Rect {
    Strip(r, depth, psum, 1.0 - psum)
  }

  /** Along one side: the next strip, then what is left after it. */
  lemma Steps(x: real, w: real, psum: real, p: real)
    requires w >= 0.0 && psum >= 0.0 && p >= 0.0 && psum + p <= 1.0
    ensures w * p >= 0.0 && w * (1.0 - psum) >= 0.0 && w * (1.0 - (psum + p)) >= 0.0
    ensures x <= x + w * psum && x + w * psum + w * p == x + w * (psum + p)
    ensures x + w * (psum + p) + w * (1.0 - (psum + p)) == x + w
    ensures x + w * psum + w * (1.0 - psum) == x + w
  {
    var q := psum + p;
    Distribute(w, psum, p);
    Distribute(w, psum, 1.0 - psum);
    Distribute(w, q, 1.0 - q);
    Scale(w, 0.0, psum);
    Scale(w, 0.0, p);
    Scale(w, 0.0, 1.0 - psum);
    Scale(w, 0.0, 1.0 - q);
  }

  lemma Distribute(w: real, a: real, b: real)
    ensures w * (a + b) == w * a + w * b
  {
  }

  /** The next strip and what is left after it lie in what was left, in order. */
  lemma Strips(r: Rect, depth: nat, psum: real, p: real)
    requires Proper(r) && psum >= 0.0 && p >= 0.0 && psum + p <= 1.0
    ensures Proper(Strip(r, depth, psum, p)) && Proper(Rest(r, depth, psum)) && Proper(Rest(r, depth, psum + p))
    ensures Inside(Strip(r, depth, psum, p), Rest(r, depth, psum))
    ensures Inside(Rest(r, depth, psum + p), Rest(r, depth, psum))
    ensures Apart(Strip(r, depth, psum, p), Rest(r, depth, psum + p))
  {
    if depth % 2 == 0 {
      Steps(r.x, r.w, psum, p);
    } else {
      Steps(r.y, r.h, psum, p);
    }
  }

  lemma WholeRest(r: Rect, depth: nat)
    ensures Rest(r, depth, 0.0) == r
  {
  }

  lemma InsideApart(a: Rect, b: Rect, c: Rect, d: Rect)
    requires Inside(a, b) && Inside(c, d) && Apart(b, d) && Proper(a) && Proper(c)
    ensures Apart(a, c)
  {
  }

  /** The rectangles of the children from `k` on. */
  ghost predicate Below(drawn: seq<Drawn>, path: seq<nat>, k: nat) {
    forall i :: 0 <= i < |drawn| ==>
      |drawn[i].path| > |path| && path <= drawn[i].path && drawn[i].path[|path|] >= k
  }

  lemma Beside(a: seq<Drawn>, b: seq<Drawn>, s: Rect, t: Rect, path: seq<nat>, k: nat)
    requires Nested(a) && Nested(b) && Apart(s, t)
    requires AllInside(a, s, path + [k]) && AllInside(b, t, path) && Below(b, path, k + 1)
    ensures Nested(a + b)
  {
    var c := a + b;
    forall i, j | 0 <= i < |a| && |a| <= j < |c|
      ensures Apart(c[i].rect, c[j].rect) && !(c[i].path <= c[j].path) && !(c[j].path <= c[i].path)
    {
      InsideApart(a[i].rect, s, b[j - |a|].rect, t);
      assert c[i].path[|path|] == (path + [k])[|path|];
    }
  }

  lemma Widen(drawn: seq<Drawn>, r: Rect, s: Rect, path: seq<nat>)
    requires AllInside(drawn, r, path) && Inside(r, s)
    ensures AllInside(drawn, s, path)
  {
  }

  /** Everything drawn for a node lies in its rectangle; a rectangle lies inside
      those of all its ancestors and apart from all others. */
  lemma {:induction false} LayoutNested(n: Node, r: Rect, depth: nat, maxDepth: nat, path: seq<nat>)
    requires NonNegative(n) && Proper(r)
    ensures var drawn := Layout(n, r, depth, maxDepth, path); AllInside(drawn, r, path) && Nested(drawn)
    decreases n, |n.children| + 1
  {
    if depth < maxDepth {
      if Whole(n) != 0.0 {
        assert n.children[..0] == [];
        assert Before(n, 0) == 0.0;
        LayoutFromNested(n, r, depth, maxDepth, path, 0);
        WholeRest(r, depth);
      }
      NestedHead(Drawn(path, n.id, r), LayoutFrom(n, r, depth, maxDepth, path, 0, 0.0));
    }
  }

  lemma NestedHead(first: Drawn, rest: seq<Drawn>)
    requires AllInside(rest, first.rect, first.path) && Nested(rest) && Below(rest, first.path, 0) && Proper(first.rect)
    ensures AllInside([first] + rest, first.rect, first.path) && Nested([first] + rest)
  {
    var drawn := [first] + rest;
    forall j | 0 < j < |drawn|
      ensures first.path < drawn[j].path && Inside(drawn[j].rect, first.rect)
    {
      assert drawn[j] == rest[j - 1];
    }
    forall i, j | 0 < i < j < |drawn|
      ensures if drawn[i].path < drawn[j].path then Inside(drawn[j].rect, drawn[i].rect)
              else Apart(drawn[i].rect, drawn[j].rect) && !(drawn[j].path <= drawn[i].path)
    {
      assert drawn[i] == rest[i - 1] && drawn[j] == rest[j - 1];
    }
  }

  lemma {:induction false} LayoutFromNested(n: Node, r: Rect, depth: nat, maxDepth: nat, path: seq<nat>, k: nat)
    requires NonNegative(n) && Proper(r) && k <= |n.children| && Whole(n) != 0.0
    ensures var drawn := LayoutFrom(n, r, depth, maxDepth, path, k, Before(n, k));
      AllInside(drawn, Rest(r, depth, Before(n, k)), path) && Nested(drawn) && Below(drawn, path, k)
    decreases n, |n.children| - k
  {
    Shares(n, k);
    if k < |n.children| {
      var psum, p := Before(n, k), n.children[k].value / Whole(n);
      var strip := Strip(r, depth, psum, p);
      var next := Shrunk(strip);
      Shares(n, k + 1);
      Strips(r, depth, psum, p);
      LayoutFromNested(n, r, depth, maxDepth, path, k + 1);
      var after := LayoutFrom(n, r, depth, maxDepth, path, k + 1, psum + p);
      var drawn := LayoutFrom(n, r, depth, maxDepth, path, k, psum);
      if next.w > 2.0 && next.h > 2.0 {
        LayoutNested(n.children[k], next, depth + 1, maxDepth, path + [k]);
        var one := Layout(n.children[k], next, depth + 1, maxDepth, path + [k]);
        JoinChild(one, after, next, strip, Rest(r, depth, psum + p), Rest(r, depth, psum), path, k);
        assert drawn == one + after;
      } else {
        Widen(after, Rest(r, depth, psum + p), Rest(r, depth, psum), path);
        BelowLess(after, path, k);
        assert drawn == [] + after == after;
      }
    }
  }

  lemma BelowLess(drawn: seq<Drawn>, path: seq<nat>, k: nat)
    requires Below(drawn, path, k + 1)
    ensures Below(drawn, path, k)
  {
  }

  /** One child's rectangles, in its strip, and those of the later children. */
  lemma JoinChild(
    one: seq<Drawn>, after: seq<Drawn>, next: Rect, strip: Rect, rest: Rect, all: Rect, path: seq<nat>, k: nat)
    requires AllInside(one, next, path + [k]) && Nested(one)
    requires AllInside(after, rest, path) && Nested(after) && Below(after, path, k + 1)
    requires Inside(next, strip) && Inside(strip, all) && Inside(rest, all) && Apart(strip, rest)
    ensures AllInside(one + after, all, path) && Nested(one + after) && Below(one + after, path, k)
  {
    Widen(one, next, strip, path + [k]);
    Beside(one, after, strip, rest, path, k);
    Widen(one, strip, all, path + [k]);
    Widen(after, rest, all, path);
    JoinBelow(one, after, all, path, k);
  }

  lemma JoinBelow(a: seq<Drawn>, b: seq<Drawn>, r: Rect, path: seq<nat>, k: nat)
    requires AllInside(a, r, path + [k]) && AllInside(b, r, path) && Below(b, path, k + 1)
    ensures AllInside(a + b, r, path) && Below(a + b, path, k)
  {
    var c := a + b;
    forall i | 0 <= i < |c|
      ensures Proper(c[i].rect) && Inside(c[i].rect, r) && path <= c[i].path
      ensures |c[i].path| > |path| && c[i].path[|path|] >= k
    {
      if i < |a| {
        assert path + [k] <= c[i].path;
        assert c[i].path[|path|] == (path + [k])[|path|];
      } else {
        assert c[i] == b[i - |a|];
      }
    }
  }

  /** The strips of all children together fill the rectangle exactly if the
      node's own value does not exceed theirs. */
  lemma StripsFill(n: Node)
    requires NonNegative(n) && Whole(n) != 0.0
    ensures Before(n, |n.children|) == 1.0 <==> n.value <= SumValues(n.children)
  {
    SumSteps(n, |n.children|);
    assert n.children[..|n.children|] == n.children;
    FullQuotient(SumValues(n.children), Whole(n));
  }

  lemma FullQuotient(s: real, all: real)
    requires all > 0.0 && 0.0 <= s <= all
    ensures s / all == 1.0 <==> s == all
  {
  }

  /** Every rectangle but the first comes after its parent's. */
  ghost predicate ParentsFirst(drawn: seq<Drawn>) {
    forall i :: 0 < i < |drawn| ==> ParentBefore(drawn, i)
  }

  ghost predicate ParentBefore(drawn: seq<Drawn>, i: nat)
    requires i < |drawn|
  {
    var p := drawn[i].path;
    p != [] && exists j :: 0 <= j < i && drawn[j].path == p[..|p| - 1]
  }

  lemma {:induction false} AncestorsDrawn(n: Node, r: Rect, depth: nat, maxDepth: nat, path: seq<nat>)
    ensures var drawn := Layout(n, r, depth, maxDepth, path);
      ParentsFirst(drawn) && (drawn != [] ==> drawn[0].path == path)
    decreases n, |n.children| + 1
  {
    if depth < maxDepth {
      LaterParents(n, r, depth, maxDepth, path, 0, 0.0, Drawn(path, n.id, r));
    }
  }

  lemma {:induction false} LaterParents(
    n: Node, r: Rect, depth: nat, maxDepth: nat, path: seq<nat>, k: nat, psum: real, first: Drawn)
    requires k <= |n.children| && first.path == path
    ensures ParentsFirst([first] + LayoutFrom(n, r, depth, maxDepth, path, k, psum))
    decreases n, |n.children| - k
  {
    if k < |n.children| && Whole(n) != 0.0 {
      var p := n.children[k].value / Whole(n);
      var next := Shrunk(Strip(r, depth, psum, p));
      LaterParents(n, r, depth, maxDepth, path, k + 1, psum + p, first);
      var after := LayoutFrom(n, r, depth, maxDepth, path, k + 1, psum + p);
      if next.w > 2.0 && next.h > 2.0 {
        AncestorsDrawn(n.children[k], next, depth + 1, maxDepth, path + [k]);
        JoinParents(first, Layout(n.children[k], next, depth + 1, maxDepth, path + [k]), after, path, k);
      } else {
        assert [] + after == after;
      }
    }
  }

  lemma JoinParents(first: Drawn, one: seq<Drawn>, after: seq<Drawn>, path: seq<nat>, k: nat)
    requires first.path == path && ParentsFirst(one) && (one != [] ==> one[0].path == path + [k])
    requires ParentsFirst([first] + after)
    ensures ParentsFirst([first] + (one + after))
  {
    var all, rest := [first] + (one + after), [first] + after;
    forall i | 0 < i < |all|
      ensures ParentBefore(all, i)
    {
      if i == 1 && one != [] {
        assert all[1].path[..|path|] == all[0].path;
      } else if i <= |one| {
        assert ParentBefore(one, i - 1) && all[i] == one[i - 1];
        var j :| 0 <= j < i - 1 && one[j].path == all[i].path[..|all[i].path| - 1];
        assert all[j + 1] == one[j];
      } else {
        assert ParentBefore(rest, i - |one|) && all[i] == rest[i - |one|];
        var j :| 0 <= j < i - |one| && rest[j].path == all[i].path[..|all[i].path| - 1];
        assert all[if j == 0 then 0 else j + |one|] == rest[j];
      }
    }
  }

  // ------------------------------------------------- exactly what is drawn

  /** The node reached from the root by taking the given children in turn. */
  function NodeAt(top: Node, path: seq<nat>): Option<Node> {
    if path == [] then Some(top)
    else
      var up, k := NodeAt(top, path[..|path| - 1]), path[|path| - 1];
      if up.Some? && k < |up.value.children| then Some(up.value.children[k]) else None
  }

  lemma NodeBelow(top: Node, path: seq<nat>, k: nat)
    requires NodeAt(top, path).Some?
    ensures NodeAt(top, path + [k])
         == if k < |NodeAt(top, path).value.children| then Some(NodeAt(top, path).value.children[k]) else None
  {
    assert (path + [k])[..|path|] == path;
  }

  /** The rectangle of child `k` in its parent's: of the side that is cut, its
      share of the larger of the parent's own value and its children's sum, from
      the shares before it on, less a border of 2 all around; and it is large
      enough to be drawn. */
  predicate CutFor(m: Node, r: Rect, depth: nat, k: nat, s: Rect)
    requires k < |m.children|
  {
    var sum := SumValues(m.children);
    var whole := if m.value > sum then m.value else sum;
    && whole != 0.0 && s.w > 2.0 && s.h > 2.0
    && var from, share := SumValues(m.children[..k]) / whole, m.children[k].value / whole;
    if depth % 2 == 0 then s == Rect(r.x + r.w * from + 2.0, r.y + 2.0, r.w * share - 4.0, r.h - 4.0)
    else s == Rect(r.x + 2.0, r.y + r.h * from + 2.0, r.w - 4.0, r.h * share - 4.0)
  }

  /** An entry bears the id of the node at its path. */
  predicate EntryOk(top: Node, e: Drawn) {
    var m := NodeAt(top, e.path);
    m.Some? && e.node == m.value.id
  }

  /** A child of a drawn node is drawn exactly if the depth allows it and its
      rectangle is large enough, and then as that rectangle. */
  predicate ChildOk(top: Node, depth: nat, maxDepth: nat, drawn: seq<Drawn>, e: Drawn, k: nat, s: Rect) {
    var m := NodeAt(top, e.path);
    m.Some? && k < |m.value.children| ==>
      (Drawn(e.path + [k], m.value.children[k].id, s) in drawn
       <==> depth + |e.path| + 1 < maxDepth && CutFor(m.value, e.rect, depth + |e.path|, k, s))
  }

  ghost predicate EntriesOk(top: Node, drawn: seq<Drawn>, path: seq<nat>) {
    forall e {:trigger EntryOk(top, e)} {:trigger e in drawn} :: e in drawn ==> path <= e.path && EntryOk(top, e)
  }

  ghost predicate ChildrenOk(top: Node, depth: nat, maxDepth: nat, drawn: seq<Drawn>) {
    forall e, k: nat, s {:trigger ChildOk(top, depth, maxDepth, drawn, e, k, s)} :: e in drawn ==>
      ChildOk(top, depth, maxDepth, drawn, e, k, s)
  }

  /** The drawing of one node: its own entry, and nothing else at its path. */
  ghost predicate HeadOk(n: Node, r: Rect, depth: nat, maxDepth: nat, path: seq<nat>, drawn: seq<Drawn>) {
    forall id, s :: Drawn(path, id, s) in drawn <==> depth < maxDepth && id == n.id && s == r
  }

  /** The drawings of the children from `k` on. */
  ghost predicate TailOk(n: Node, r: Rect, depth: nat, maxDepth: nat, path: seq<nat>, k: nat, drawn: seq<Drawn>) {
    forall j, s {:trigger TailAt(n, r, depth, maxDepth, path, j, s, drawn)} :: k <= j < |n.children| ==>
      TailAt(n, r, depth, maxDepth, path, j, s, drawn)
  }

  predicate TailAt(n: Node, r: Rect, depth: nat, maxDepth: nat, path: seq<nat>, j: nat, s: Rect, drawn: seq<Drawn>)
    requires j < |n.children|
  {
    Drawn(path + [j], n.children[j].id, s) in drawn <==> depth + 1 < maxDepth && CutFor(n, r, depth, j, s)
  }

  lemma CutIsNext(n: Node, r: Rect, depth: nat, k: nat, s: Rect)
    requires k < |n.children| && Whole(n) != 0.0
    ensures var next := Shrunk(Strip(r, depth, Before(n, k), n.children[k].value / Whole(n)));
      CutFor(n, r, depth, k, s) <==> s == next && next.w > 2.0 && next.h > 2.0
  {
  }

  lemma {:induction false} LayoutOk(
    top: Node, start: nat, n: Node, r: Rect, depth: nat, maxDepth: nat, path: seq<nat>)
    requires NodeAt(top, path) == Some(n) && depth == start + |path|
    ensures var drawn := Layout(n, r, depth, maxDepth, path);
      && EntriesOk(top, drawn, path) && HeadOk(n, r, depth, maxDepth, path, drawn)
      && ChildrenOk(top, start, maxDepth, drawn)
    decreases n, |n.children| + 1
  {
    if depth < maxDepth {
      if Whole(n) == 0.0 {
        NoneBelow(n, r, depth, maxDepth, path);
      } else {
        assert n.children[..0] == [] && Before(n, 0) == 0.0;
        LayoutFromOk(top, start, n, r, depth, maxDepth, path, 0);
      }
      JoinHead(top, start, n, r, depth, maxDepth, path, LayoutFrom(n, r, depth, maxDepth, path, 0, 0.0));
    }
  }

  lemma NoneBelow(n: Node, r: Rect, depth: nat, maxDepth: nat, path: seq<nat>)
    requires Whole(n) == 0.0
    ensures LayoutFrom(n, r, depth, maxDepth, path, 0, 0.0) == []
    ensures TailOk(n, r, depth, maxDepth, path, 0, [])
  {
  }

  lemma JoinHead(
    top: Node, start: nat, n: Node, r: Rect, depth: nat, maxDepth: nat, path: seq<nat>, rest: seq<Drawn>)
    requires NodeAt(top, path) == Some(n) && depth == start + |path| < maxDepth
    requires EntriesOk(top, rest, path) && Below(rest, path, 0) && ChildrenOk(top, start, maxDepth, rest)
    requires TailOk(n, r, depth, maxDepth, path, 0, rest)
    ensures var drawn := [Drawn(path, n.id, r)] + rest;
      && EntriesOk(top, drawn, path) && HeadOk(n, r, depth, maxDepth, path, drawn)
      && ChildrenOk(top, start, maxDepth, drawn)
  {
    var first := Drawn(path, n.id, r);
    var drawn := [first] + rest;
    forall e | e in drawn
      ensures path <= e.path && EntryOk(top, e) && (e == first || (e in rest && e.path != path))
    {
    }
    forall e, k: nat, s | e in drawn
      ensures ChildOk(top, start, maxDepth, drawn, e, k, s)
    {
      if e == first {
        HeadChild(top, start, n, r, depth, maxDepth, path, rest, k, s);
      } else {
        RestChild(top, start, maxDepth, first, rest, e, k, s);
      }
    }
  }

  lemma HeadChild(
    top: Node, start: nat, n: Node, r: Rect, depth: nat, maxDepth: nat, path: seq<nat>, rest: seq<Drawn>, k: nat, s: Rect)
    requires NodeAt(top, path) == Some(n) && depth == start + |path|
    requires TailOk(n, r, depth, maxDepth, path, 0, rest)
    ensures ChildOk(top, start, maxDepth, [Drawn(path, n.id, r)] + rest, Drawn(path, n.id, r), k, s)
  {
    assert |path + [k]| != |path|;
    if k < |n.children| {
      assert TailAt(n, r, depth, maxDepth, path, k, s, rest);
    }
  }

  lemma RestChild(
    top: Node, start: nat, maxDepth: nat, first: Drawn, rest: seq<Drawn>, e: Drawn, k: nat, s: Rect)
    requires ChildrenOk(top, start, maxDepth, rest) && e in rest && |e.path| >= |first.path|
    ensures ChildOk(top, start, maxDepth, [first] + rest, e, k, s)
  {
    assert |e.path + [k]| != |first.path|;
    assert ChildOk(top, start, maxDepth, rest, e, k, s);
  }

  lemma {:induction false} LayoutFromOk(
    top: Node, start: nat, n: Node, r: Rect, depth: nat, maxDepth: nat, path: seq<nat>, k: nat)
    requires NodeAt(top, path) == Some(n) && depth == start + |path|
    requires k <= |n.children| && Whole(n) != 0.0
    ensures var drawn := LayoutFrom(n, r, depth, maxDepth, path, k, Before(n, k));
      && EntriesOk(top, drawn, path) && Below(drawn, path, k) && ChildrenOk(top, start, maxDepth, drawn)
      && TailOk(n, r, depth, maxDepth, path, k, drawn)
    decreases n, |n.children| - k
  {
    if k < |n.children| {
      var next, one := NextDrawn(n, r, depth, maxDepth, path, k);
      LayoutFromOk(top, start, n, r, depth, maxDepth, path, k + 1);
      if next.w > 2.0 && next.h > 2.0 {
        NodeBelow(top, path, k);
        LayoutOk(top, start, n.children[k], next, depth + 1, maxDepth, path + [k]);
      }
      JoinTail(top, start, n, r, depth, maxDepth, path, k, next, one,
               LayoutFrom(n, r, depth, maxDepth, path, k + 1, Before(n, k + 1)));
    }
  }

  /** The drawing of the children from `k` on begins with that of child `k`. */
  lemma NextDrawn(n: Node, r: Rect, depth: nat, maxDepth: nat, path: seq<nat>, k: nat)
    returns (next: Rect, one: seq<Drawn>)
    requires k < |n.children| && Whole(n) != 0.0
    ensures next == Shrunk(Strip(r, depth, Before(n, k), n.children[k].value / Whole(n)))
    ensures one == if next.w > 2.0 && next.h > 2.0 then Layout(n.children[k], next, depth + 1, maxDepth, path + [k])
                   else []
    ensures LayoutFrom(n, r, depth, maxDepth, path, k, Before(n, k))
         == one + LayoutFrom(n, r, depth, maxDepth, path, k + 1, Before(n, k + 1))
  {
    NextBefore(n, k);
    var psum, p := Before(n, k), n.children[k].value / Whole(n);
    next := Shrunk(Strip(r, depth, psum, p));
    FromUnfolds(n, r, depth, maxDepth, path, k, psum, p, next);
    one := if next.w > 2.0 && next.h > 2.0 then Layout(n.children[k], next, depth + 1, maxDepth, path + [k]) else [];
  }

  lemma FromUnfolds(
    n: Node, r: Rect, depth: nat, maxDepth: nat, path: seq<nat>, k: nat, psum: real, p: real, next: Rect)
    requires k < |n.children| && Whole(n) != 0.0 && p == n.children[k].value / Whole(n)
    requires next == Shrunk(Strip(r, depth, psum, p))
    ensures LayoutFrom(n, r, depth, maxDepth, path, k, psum)
         == (if next.w > 2.0 && next.h > 2.0 then Layout(n.children[k], next, depth + 1, maxDepth, path + [k]) else [])
            + LayoutFrom(n, r, depth, maxDepth, path, k + 1, psum + p)
  {
  }

  /** The drawing of child `k`, if there is any, and those of the later ones. */
  lemma JoinTail(
    top: Node, start: nat, n: Node, r: Rect, depth: nat, maxDepth: nat, path: seq<nat>, k: nat, next: Rect,
    one: seq<Drawn>, rest: seq<Drawn>)
    requires NodeAt(top, path) == Some(n) && depth == start + |path| && k < |n.children| && Whole(n) != 0.0
    requires next == Shrunk(Strip(r, depth, Before(n, k), n.children[k].value / Whole(n)))
    requires EntriesOk(top, one, path + [k]) && ChildrenOk(top, start, maxDepth, one)
    requires if next.w > 2.0 && next.h > 2.0 then HeadOk(n.children[k], next, depth + 1, maxDepth, path + [k], one)
             else one == []
    requires EntriesOk(top, rest, path) && Below(rest, path, k + 1) && ChildrenOk(top, start, maxDepth, rest)
    requires TailOk(n, r, depth, maxDepth, path, k + 1, rest)
    ensures var drawn := one + rest;
      && EntriesOk(top, drawn, path) && Below(drawn, path, k) && ChildrenOk(top, start, maxDepth, drawn)
      && TailOk(n, r, depth, maxDepth, path, k, drawn)
  {
    OneBelow(top, one, path, k);
    JoinEntries(top, one, rest, path, k);
    JoinChildren(top, start, maxDepth, one, rest, path, k);
    forall j, s | k <= j < |n.children|
      ensures TailAt(n, r, depth, maxDepth, path, j, s, one + rest)
    {
      CutIsNext(n, r, depth, k, s);
      var d := Drawn(path + [j], n.children[j].id, s);
      assert d.path[|path|] == j;
      if j == k {
        assert d !in rest;
      } else {
        assert d !in one;
        assert TailAt(n, r, depth, maxDepth, path, j, s, rest);
      }
    }
  }

  /** Everything drawn for child `k` has `k` at that place of its path. */
  lemma OneBelow(top: Node, one: seq<Drawn>, path: seq<nat>, k: nat)
    requires EntriesOk(top, one, path + [k])
    ensures forall e :: e in one ==> |e.path| > |path| && path <= e.path && e.path[|path|] == k
  {
    forall e | e in one
      ensures |e.path| > |path| && path <= e.path && e.path[|path|] == k
    {
      assert path + [k] <= e.path;
      assert e.path[|path|] == (path + [k])[|path|];
    }
  }

  lemma JoinEntries(top: Node, one: seq<Drawn>, rest: seq<Drawn>, path: seq<nat>, k: nat)
    requires EntriesOk(top, one, path + [k])
    requires forall e :: e in one ==> |e.path| > |path| && path <= e.path && e.path[|path|] == k
    requires EntriesOk(top, rest, path) && Below(rest, path, k + 1)
    ensures EntriesOk(top, one + rest, path) && Below(one + rest, path, k)
  {
    var all := one + rest;
    forall i | 0 <= i < |all|
      ensures |all[i].path| > |path| && path <= all[i].path && all[i].path[|path|] >= k
    {
      if i < |one| {
        assert all[i] in one;
      } else {
        assert all[i] == rest[i - |one|];
      }
    }
  }

  lemma JoinChildren(
    top: Node, start: nat, maxDepth: nat, one: seq<Drawn>, rest: seq<Drawn>, path: seq<nat>, k: nat)
    requires ChildrenOk(top, start, maxDepth, one) && ChildrenOk(top, start, maxDepth, rest)
    requires forall e :: e in one ==> |e.path| > |path| && path <= e.path && e.path[|path|] == k
    requires Below(rest, path, k + 1)
    ensures ChildrenOk(top, start, maxDepth, one + rest)
  {
    var all := one + rest;
    forall e, j: nat, s | e in all
      ensures ChildOk(top, start, maxDepth, all, e, j, s)
    {
      var m := NodeAt(top, e.path);
      if m.Some? && j < |m.value.children| {
        var d := Drawn(e.path + [j], m.value.children[j].id, s);
        if e in one {
          assert d.path[|path|] == k && d !in rest;
          assert ChildOk(top, start, maxDepth, one, e, j, s);
        } else {
          assert e in rest && d.path[|path|] > k && d !in one;
          assert ChildOk(top, start, maxDepth, rest, e, j, s);
        }
      }
    }
  }

  /** Exactly this is drawn: the root in the given rectangle, if the depth allows
      anything; each entry bears the id of the tree node at its path; and below a
      drawn node just those children that the depth allows and whose rectangle is
      large enough, each cut from its parent's. */
  lemma DrawsTree(n: Node, r: Rect, depth: nat, maxDepth: nat)
    ensures var drawn := Layout(n, r, depth, maxDepth, []);
      && (forall id, s :: Drawn([], id, s) in drawn <==> depth < maxDepth && id == n.id && s == r)
      && (forall e :: e in drawn ==> NodeAt(n, e.path).Some? && e.node == NodeAt(n, e.path).value.id)
      && (forall e, k: nat, s :: e in drawn && k < |NodeAt(n, e.path).value.children| ==>
            (Drawn(e.path + [k], NodeAt(n, e.path).value.children[k].id, s) in drawn
             <==> depth + |e.path| + 1 < maxDepth
                  && CutFor(NodeAt(n, e.path).value, e.rect, depth + |e.path|, k, s)))
  {
    LayoutOk(n, depth, n, r, depth, maxDepth, []);
    var drawn := Layout(n, r, depth, maxDepth, []);
    forall e, k: nat, s | e in drawn && k < |NodeAt(n, e.path).value.children|
      ensures Drawn(e.path + [k], NodeAt(n, e.path).value.children[k].id, s) in drawn
         <==> depth + |e.path| + 1 < maxDepth
              && CutFor(NodeAt(n, e.path).value, e.rect, depth + |e.path|, k, s)
    {
      assert ChildOk(n, depth, maxDepth, drawn, e, k, s);
    }
  }

  /** A node's path comes before those of its descendants, and a child's before
      those of the children after it. */
  ghost predicate Earlier(p: seq<nat>, q: seq<nat>) {
    p < q || exists i :: 0 <= i < |p| && i < |q| && p[..i] == q[..i] && p[i] < q[i]
  }

  ghost predicate InOrder(drawn: seq<Drawn>) {
    forall i, j :: 0 <= i < j < |drawn| ==> Earlier(drawn[i].path, drawn[j].path)
  }

  ghost predicate OrderedBelow(drawn: seq<Drawn>, path: seq<nat>, k: nat) {
    InOrder(drawn) && Below(drawn, path, k)
  }

  ghost predicate OrderedFrom(drawn: seq<Drawn>, path: seq<nat>) {
    InOrder(drawn) && forall i :: 0 <= i < |drawn| ==> path <= drawn[i].path
  }

  lemma OrderedHead(first: Drawn, rest: seq<Drawn>)
    requires OrderedBelow(rest, first.path, 0)
    ensures OrderedFrom([first] + rest, first.path)
  {
    var drawn := [first] + rest;
    forall i, j | 0 <= i < j < |drawn|
      ensures Earlier(drawn[i].path, drawn[j].path)
    {
      assert drawn[j] == rest[j - 1];
      assert i > 0 ==> drawn[i] == rest[i - 1];
    }
  }

  /** The rectangles are drawn in this order, so none twice. */
  lemma {:induction false} DrawnInOrder(n: Node, r: Rect, depth: nat, maxDepth: nat, path: seq<nat>)
    ensures OrderedFrom(Layout(n, r, depth, maxDepth, path), path)
    decreases n, |n.children| + 1
  {
    if depth < maxDepth {
      RestInOrder(n, r, depth, maxDepth, path, 0, 0.0);
      OrderedHead(Drawn(path, n.id, r), LayoutFrom(n, r, depth, maxDepth, path, 0, 0.0));
    }
  }

  lemma {:induction false} RestInOrder(
    n: Node, r: Rect, depth: nat, maxDepth: nat, path: seq<nat>, k: nat, psum: real)
    requires k <= |n.children|
    ensures OrderedBelow(LayoutFrom(n, r, depth, maxDepth, path, k, psum), path, k)
    decreases n, |n.children| - k
  {
    if k < |n.children| && Whole(n) != 0.0 {
      var next, large, after := FromSplits(n, r, depth, maxDepth, path, k, psum);
      RestInOrder(n, r, depth, maxDepth, path, k + 1, after);
      if large {
        DrawnInOrder(n.children[k], next, depth + 1, maxDepth, path + [k]);
      }
      JoinOrder(if large then Layout(n.children[k], next, depth + 1, maxDepth, path + [k]) else [],
                LayoutFrom(n, r, depth, maxDepth, path, k + 1, after), path, k);
    }
  }

  lemma FromSplits(n: Node, r: Rect, depth: nat, maxDepth: nat, path: seq<nat>, k: nat, psum: real)
    returns (next: Rect, large: bool, after: real)
    requires k < |n.children| && Whole(n) != 0.0
    ensures LayoutFrom(n, r, depth, maxDepth, path, k, psum)
         == (if large then Layout(n.children[k], next, depth + 1, maxDepth, path + [k]) else [])
            + LayoutFrom(n, r, depth, maxDepth, path, k + 1, after)
  {
    var p := n.children[k].value / Whole(n);
    next := Shrunk(Strip(r, depth, psum, p));
    large, after := next.w > 2.0 && next.h > 2.0, psum + p;
    FromUnfolds(n, r, depth, maxDepth, path, k, psum, p, next);
  }

  lemma JoinOrder(one: seq<Drawn>, rest: seq<Drawn>, path: seq<nat>, k: nat)
    requires OrderedFrom(one, path + [k]) && OrderedBelow(rest, path, k + 1)
    ensures OrderedBelow(one + rest, path, k)
  {
    var all := one + rest;
    forall i, j | 0 <= i < |one| <= j < |all|
      ensures Earlier(all[i].path, all[j].path)
    {
      var p, q := all[i].path, all[j].path;
      assert path + [k] <= p && all[j] == rest[j - |one|];
      assert p[|path|] == (path + [k])[|path|] && p[..|path|] == path == q[..|path|];
    }
    forall i | 0 <= i < |all|
      ensures |all[i].path| > |path| && path <= all[i].path && all[i].path[|path|] >= k
    {
      if i < |one| {
        assert path + [k] <= all[i].path && all[i].path[|path|] == (path + [k])[|path|];
      } else {
        assert all[i] == rest[i - |one|];
      }
    }
  }

  // --------------------------------------------------------- negative values

  /** The rectangle of child `k` in `r`, and whether it is large enough to be drawn. */
  ghost function ChildRect(n: Node, r: Rect, depth: nat, k: nat): Rect
    requires k < |n.children| && Whole(n) != 0.0
  {
    Shrunk(Strip(r, depth, Before(n, k), n.children[k].value / Whole(n)))
  }

  predicate IsDrawn(r: Rect) {
    r.w > 2.0 && r.h > 2.0
  }

  lemma NextBefore(n: Node, k: nat)
    requires k < |n.children| && Whole(n) != 0.0
    ensures Before(n, k + 1) == Before(n, k) + n.children[k].value / Whole(n)
  {
    SumNext(n.children, k);
    var s, v, all := SumValues(n.children[..k]), n.children[k].value, Whole(n);
    assert (s + v) / all == s / all + v / all;
  }

  /** Whatever the signs of the values, a child's rectangle lies inside its
      parent's exactly if the shares before and through it leave the side it is
      cut from by no more than the border. */
  lemma ChildInsideIff(n: Node, r: Rect, depth: nat, k: nat)
    requires k < |n.children| && Whole(n) != 0.0
    ensures var side := if depth % 2 == 0 then r.w else r.h;
      Inside(ChildRect(n, r, depth, k), r)
      <==> side * Before(n, k) >= -2.0 && side * Before(n, k + 1) <= side + 2.0
  {
    NextBefore(n, k);
    StripInside(r, depth, Before(n, k), n.children[k].value / Whole(n), Before(n, k + 1));
  }

  lemma StripInside(r: Rect, depth: nat, a: real, p: real, b: real)
    requires b == a + p
    ensures var side := if depth % 2 == 0 then r.w else r.h;
      Inside(Shrunk(Strip(r, depth, a, p)), r) <==> side * a >= -2.0 && side * b <= side + 2.0
  {
    if depth % 2 == 0 {
      Cut(r.x, r.w, a, p, b);
    } else {
      Cut(r.y, r.h, a, p, b);
    }
  }

  /** The part of a line from share `a` to share `b`, less the border. */
  lemma Cut(from: real, length: real, a: real, p: real, b: real)
    requires b == a + p
    ensures var start := from + length * a + 2.0;
      from <= start && start + (length * p - 4.0) <= from + length
      <==> length * a >= -2.0 && length * b <= length + 2.0
  {
    Distribute(length, a, p);
  }

  lemma Large(p: real, a: real) returns (s: real)
    requires p > 0.0 && a < 0.0
    ensures s >= 7.0 && s * p >= 7.0 && s * a <= -3.0
  {
    var u, v := 7.0 / p, 3.0 / -a;
    var t := 7.0 + u;
    s := t + v;
    assert u > 0.0 && v > 0.0;
    assert u * p == 7.0 && v * a == -3.0;
    Distribute(p, 7.0, u);
    Distribute(p, t, v);
    Distribute(a, 7.0, u);
    Distribute(a, t, v);
    Scale(p, 0.0, v);
    Scale(u, a, 0.0);
    assert v * p >= 0.0 && u * a <= 0.0;
    assert t * p >= 7.0 && t * a <= 0.0;
  }

  /** So a child that is drawn lies inside its parent at every size exactly if
      the values before it and those through it add up to something between
      zero and the whole. A child without a positive share is never drawn. */
  lemma InsideAtEverySize(n: Node, depth: nat, k: nat)
    requires k < |n.children| && Whole(n) != 0.0
    ensures (forall r {:trigger ChildRect(n, r, depth, k)} ::
               Proper(r) && IsDrawn(ChildRect(n, r, depth, k)) ==> Inside(ChildRect(n, r, depth, k), r))
       <==> n.children[k].value / Whole(n) <= 0.0 || (0.0 <= Before(n, k) && Before(n, k + 1) <= 1.0)
  {
    var a, p := Before(n, k), n.children[k].value / Whole(n);
    NextBefore(n, k);
    if p > 0.0 && (a < 0.0 || a + p > 1.0) {
      var s := Large(p, if a < 0.0 then a else 1.0 - (a + p));
      SpillsAt(n, Rect(0.0, 0.0, s, s), depth, k, s);
    } else {
      forall r | Proper(r) && IsDrawn(ChildRect(n, r, depth, k))
        ensures Inside(ChildRect(n, r, depth, k), r)
      {
        if p <= 0.0 {
          NotDrawn(n, r, depth, k);
          assert false;
        }
        ChildInsideIff(n, r, depth, k);
        Within(if depth % 2 == 0 then r.w else r.h, Before(n, k), Before(n, k + 1));
      }
    }
  }

  lemma SpillsAt(n: Node, r: Rect, depth: nat, k: nat, s: real)
    requires k < |n.children| && Whole(n) != 0.0 && r == Rect(0.0, 0.0, s, s) && s >= 7.0
    requires s * (n.children[k].value / Whole(n)) >= 7.0
    requires s * Before(n, k) <= -3.0 || s * (1.0 - Before(n, k + 1)) <= -3.0
    ensures Proper(r) && IsDrawn(ChildRect(n, r, depth, k)) && !Inside(ChildRect(n, r, depth, k), r)
  {
    ChildInsideIff(n, r, depth, k);
    assert s * (1.0 - Before(n, k + 1)) == s - s * Before(n, k + 1);
  }

  lemma NotDrawn(n: Node, r: Rect, depth: nat, k: nat)
    requires k < |n.children| && Whole(n) != 0.0 && Proper(r) && n.children[k].value / Whole(n) <= 0.0
    ensures !IsDrawn(ChildRect(n, r, depth, k))
  {
    Scale(if depth % 2 == 0 then r.w else r.h, n.children[k].value / Whole(n), 0.0);
  }

  lemma Within(side: real, a: real, b: real)
    requires side >= 0.0 && 0.0 <= a && b <= 1.0
    ensures side * a >= 0.0 && side * b <= side
  {
    Scale(side, 0.0, a);
    Scale(side, b, 1.0);
  }
}
