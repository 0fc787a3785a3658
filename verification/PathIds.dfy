/** Global ids: a node is identified across threads and targets by hashing its
    chain of resolved names. */
module PathIds {
  import opened Wire
  import opened Forest
  import opened StoreModel

  type Path = seq<string>

  /** The resolved names on the way from the root down to node `x`. */
  ghost function NamePath(cfg: Config, tree: Tree, x: NodeId): Path
    requires WellFormed(Par(tree)) && x in tree
    decreases x
  {
    assert Hangs(Par(tree), x);
    if x == ROOT then [] else NamePath(cfg, tree, tree[x].parent) + [cfg.nameOf(tree[x].name)]
  }

  function PathHash(hash: string -> nat, p: Path): nat {
    if p == [] then 1 else hash(PathKey(PathHash(hash, p[..|p| - 1]), p[|p| - 1]))
  }

  /** No node but the root has one of the two reserved ids. */
  ghost predicate Unreserved(tree: Tree) {
    forall x :: x in tree && x != ROOT ==> tree[x].gnid >= 2
  }

  /** The strings hashed on the way down a path. */
  ghost function KeysOf(hash: string -> nat, p: Path): set<string> {
    if p == [] then {}
    else
      var init := p[..|p| - 1];
      KeysOf(hash, init) + {PathKey(PathHash(hash, init), p[|p| - 1])}
  }

  /** Among the given strings the hash has no collision, and yields no reserved id. */
  ghost predicate CollisionFreeOn(hash: string -> nat, keys: set<string>) {
    && (forall s :: s in keys ==> hash(s) >= 2)
    && forall s, t :: s in keys && t in keys && hash(s) == hash(t) ==> s == t
  }

  /** A node's global id depends on its chain of names alone. */
  lemma {:induction false} GnidIsPathHash(cfg: Config, tree: Tree, x: NodeId)
    requires WellFormed(Par(tree)) && GnidsOk(cfg, tree) && x in tree
    ensures tree[x].gnid == PathHash(cfg.hash, NamePath(cfg, tree, x))
    decreases x
  {
    assert Hangs(Par(tree), x) && GnidOk(cfg, tree, x);
    if x != ROOT {
      var p := NamePath(cfg, tree, x);
      GnidIsPathHash(cfg, tree, tree[x].parent);
      assert p[..|p| - 1] == NamePath(cfg, tree, tree[x].parent);
    }
  }

  lemma {:induction false} DigitsShape(n: nat)
    ensures Digits(n) != [] && '/' !in Digits(n)
    ensures n >= 10 ==> |Digits(n)| >= 2
  {
    if n >= 10 {
      DigitsShape(n / 10);
    }
  }

  lemma {:induction false} DigitsInjective(m: nat, n: nat)
    requires Digits(m) == Digits(n)
    ensures m == n
  {
    DigitsShape(m);
    DigitsShape(n);
    var s, t := Digits(m), Digits(n);
    assert s[|s| - 1] == (m % 10) as char + '0' && t[|t| - 1] == (n % 10) as char + '0';
    assert m % 10 == n % 10;
    if m >= 10 && n >= 10 {
      assert s[..|s| - 1] == Digits(m / 10) && t[..|t| - 1] == Digits(n / 10);
      DigitsInjective(m / 10, n / 10);
    } else {
      assert m < 10 ==> |s| == 1;
      assert n < 10 ==> |t| == 1;
    }
  }

  /** The number that a text of decimal digits stands for. */
  function NumberOf(s: string): int {
    if s == "" then 0 else 10 * NumberOf(s[..|s| - 1]) + (s[|s| - 1] as int - '0' as int)
  }

  predicate IsDigit(c: char) {
    '0' <= c <= '9'
  }

  /** The text of a number reads back as it, and has no leading zeros. */
  lemma {:induction false} DigitsRead(n: nat)
    ensures var s := Digits(n);
      && s != "" && (forall k :: 0 <= k < |s| ==> IsDigit(s[k]))
      && NumberOf(s) == n && (n > 0 ==> s[0] != '0')
  {
    if n >= 10 {
      DigitsRead(n / 10);
    }
    var s, last := Digits(n), (n % 10) as char + '0';
    assert s[|s| - 1] == last && last as int == n % 10 + '0' as int;
    assert s[..|s| - 1] == if n < 10 then "" else Digits(n / 10);
  }

  /** What is hashed for a node is the parent's global id in decimal digits, a
      slash, and the name. */
  lemma KeyText(parentGnid: nat, name: string) returns (k: nat)
    ensures var key := PathKey(parentGnid, name);
      && 0 < k < |key| && key[k] == '/' && key[k + 1..] == name
      && (forall j :: 0 <= j < k ==> IsDigit(key[j]))
      && NumberOf(key[..k]) == parentGnid && (parentGnid > 0 ==> key[0] != '0')
  {
    DigitsRead(parentGnid);
    k := |Digits(parentGnid)|;
    var key := PathKey(parentGnid, name);
    assert key[..k] == Digits(parentGnid);
    assert forall j :: 0 <= j < k ==> key[j] == Digits(parentGnid)[j];
  }

  /** The parent's id and the name can be read back from the hashed string. */
  lemma PathKeyInjective(m: nat, a: string, n: nat, b: string)
    requires PathKey(m, a) == PathKey(n, b)
    ensures m == n && a == b
  {
    var s, t, key := Digits(m), Digits(n), PathKey(m, a);
    DigitsShape(m);
    DigitsShape(n);
    assert key[|s|] == '/' && key[|t|] == '/';
    assert forall k :: 0 <= k < |s| ==> key[k] == s[k] && s[k] in s;
    assert forall k :: 0 <= k < |t| ==> key[k] == t[k] && t[k] in t;
    assert |s| == |t|;
    assert s == key[..|s|] && t == key[..|t|];
    assert a == key[|s| + 1..] && b == key[|t| + 1..];
    DigitsInjective(m, n);
  }

  lemma LastKey(hash: string -> nat, p: Path)
    requires p != []
    ensures PathKey(PathHash(hash, p[..|p| - 1]), p[|p| - 1]) in KeysOf(hash, p)
    ensures PathHash(hash, p) == hash(PathKey(PathHash(hash, p[..|p| - 1]), p[|p| - 1]))
    ensures KeysOf(hash, p[..|p| - 1]) <= KeysOf(hash, p)
  {
  }

  /** As far as the strings met have no collision, only equal name paths share a
      global id. */
  lemma {:induction false} PathHashInjective(hash: string -> nat, keys: set<string>, p: Path, q: Path)
    requires CollisionFreeOn(hash, keys) && KeysOf(hash, p) <= keys && KeysOf(hash, q) <= keys
    requires PathHash(hash, p) == PathHash(hash, q)
    ensures p == q
  {
    if p != [] {
      LastKey(hash, p);
    }
    if q != [] {
      LastKey(hash, q);
    }
    if p != [] && q != [] {
      var a, b := p[..|p| - 1], q[..|q| - 1];
      PathKeyInjective(PathHash(hash, a), p[|p| - 1], PathHash(hash, b), q[|q| - 1]);
      PathHashInjective(hash, keys, a, b);
      assert p == a + [p[|p| - 1]] && q == b + [q[|q| - 1]];
    }
  }

  /** Nodes of any two trees, of whatever threads and targets, have the same
      global id exactly when they have the same name path, unless the hash
      collides on their own two paths. */
  lemma SameGnidIffSamePath(a: Config, t: Tree, x: NodeId, b: Config, u: Tree, y: NodeId)
    requires WellFormed(Par(t)) && GnidsOk(a, t) && x in t
    requires WellFormed(Par(u)) && GnidsOk(b, u) && y in u && a.hash == b.hash
    requires CollisionFreeOn(a.hash, KeysOf(a.hash, NamePath(a, t, x)) + KeysOf(a.hash, NamePath(b, u, y)))
    ensures t[x].gnid == u[y].gnid <==> NamePath(a, t, x) == NamePath(b, u, y)
  {
    var p, q := NamePath(a, t, x), NamePath(b, u, y);
    GnidIsPathHash(a, t, x);
    GnidIsPathHash(b, u, y);
    if t[x].gnid == u[y].gnid {
      PathHashInjective(a.hash, KeysOf(a.hash, p) + KeysOf(a.hash, q), p, q);
    }
  }
}
