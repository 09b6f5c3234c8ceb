/** The table of known proxies kept by the root of the reduction tree (TBON).

    `Web.known_client` is a vector of `ClientPivot` records that name each other by URL.  This module
    gives the record, the vector helpers the server uses on it, and what it means for such a vector to
    describe a tree.  Tree facts are stated over the vector seen as a map from URL to record, so that
    they do not depend on positions, which every removal shifts.
 */
module TbonTable {

  const U32_MODULUS := 0x1_0000_0000
  const I32_MAX := 0x7fff_ffff

  datatype ClientPivot = ClientPivot(url: string, refcount: nat, child: seq<string>, depth: int) {

    /** The increment does not wrap here: it would take 2^32 children, or a record whose count is wrong already. */
    function MapTo(childUrl: string): ClientPivot {
      this.(refcount := refcount + 1, child := child + [childUrl])
    }

    /** `refcount` is a `u32` decremented without a check: zero wraps around. */
    function RemoveFrom(childUrl: string): ClientPivot {
      this.(refcount := if refcount == 0 then U32_MODULUS - 1 else refcount - 1,
            child := Without(child, childUrl))
    }

    /** The branch limit is a `u64` truncated to 32 bits before the comparison. */
    function DepthIfNotFull(maxBranches: nat): int {
      if refcount < maxBranches % U32_MODULUS then depth else I32_MAX
    }
  }

  type Table = seq<ClientPivot>
  type Nodes = map<string, ClientPivot>

  ghost predicate NoDup(xs: seq<string>) {
    forall i, j :: 0 <= i < j < |xs| ==> xs[i] != xs[j]
  }

  /** `Vec::retain(|y| y != x)` */
  function Without(xs: seq<string>, x: string): (r: seq<string>)
    ensures forall y :: y in r <==> y in xs && y != x
    ensures x !in xs ==> r == xs
    ensures NoDup(xs) ==> NoDup(r) && (x in xs ==> |r| == |xs| - 1)
  {
    if xs == [] then []
    else
      assert xs == [xs[0]] + xs[1..];
      assert NoDup(xs) ==> NoDup(xs[1..]) && xs[0] !in xs[1..];
      var rest := Without(xs[1..], x);
      if xs[0] == x then rest else [xs[0]] + rest
  }

  lemma WithoutHead(xs: seq<string>, x: string)
    requires xs != []
    ensures Without(xs, x) == if xs[0] == x then Without(xs[1..], x) else [xs[0]] + Without(xs[1..], x)
  {
  }

  /** A value that occurs once is taken out; the others keep their order. */
  lemma {:induction false} WithoutOne(xs: seq<string>, k: nat)
    requires k < |xs| && forall i :: 0 <= i < |xs| && i != k ==> xs[i] != xs[k]
    ensures Without(xs, xs[k]) == xs[..k] + xs[k + 1..]
  {
    hide Without;
    var rest := xs[1..];
    WithoutHead(xs, xs[k]);
    if k > 0 {
      WithoutOne(rest, k - 1);
      assert rest[k - 1] == xs[k];
      assert xs[..k] + xs[k + 1..] == [xs[0]] + (rest[..k - 1] + rest[k..]);
    }
  }

  /** `iter().position(|v| v.url == url)`, with the length of the table for "none" */
  function Find(t: Table, url: string): (r: nat)
    ensures r <= |t|
    ensures r < |t| ==> t[r].url == url
    ensures forall i :: 0 <= i < r ==> t[i].url != url
  {
    if t == [] then 0 else if t[0].url == url then 0 else
      var r := Find(t[1..], url);
      assert forall i :: 1 <= i < |t| ==> t[i] == t[1..][i - 1];
      r + 1
  }

  /** `iter().position(|v| v.child.contains(url))`, with the length of the table for "none" */
  function ParentPos(t: Table, url: string): (r: nat)
    ensures r <= |t|
    ensures r < |t| ==> url in t[r].child
    ensures forall i :: 0 <= i < r ==> url !in t[i].child
  {
    if t == [] then 0 else if url in t[0].child then 0 else
      var r := ParentPos(t[1..], url);
      assert forall i :: 1 <= i < |t| ==> t[i] == t[1..][i - 1];
      r + 1
  }

  /** `retain(|x| x.url != url)` */
  function Forget(t: Table, url: string): (r: Table)
    ensures forall x {:trigger x in r} {:trigger x in t} :: x in r <==> x in t && x.url != url
    ensures UniqueUrls(t) ==> UniqueUrls(r)
  {
    if t == [] then [] else
      var rest := Forget(t[1..], url);
      assert t == [t[0]] + t[1..];
      var r := if t[0].url == url then rest else [t[0]] + rest;
      assert UniqueUrls(t) ==> UniqueUrls(r) by {
        if UniqueUrls(t) && t[0].url != url {
          forall j | 1 <= j < |r| ensures r[0].url != r[j].url {
            assert r[j] in t[1..];
          }
        }
      }
      r
  }

  predicate Known(t: Table, url: string) {
    exists i :: 0 <= i < |t| && t[i].url == url
  }

  ghost predicate UniqueUrls(t: Table) {
    forall i, j :: 0 <= i < j < |t| ==> t[i].url != t[j].url
  }

  lemma {:induction false} ForgetUnknown(t: Table, url: string)
    requires forall i :: 0 <= i < |t| ==> t[i].url != url
    ensures Forget(t, url) == t
  {
    if t != [] { ForgetUnknown(t[1..], url); }
  }

  /** A known record is taken out; the others keep their order, on which later choices among equals depend. */
  lemma {:induction false} ForgetOne(t: Table, k: nat)
    requires UniqueUrls(t) && k < |t|
    ensures Forget(t, t[k].url) == t[..k] + t[k + 1..]
  {
    var rest := t[1..];
    if k == 0 {
      ForgetUnknown(rest, t[0].url);
    } else {
      ForgetOne(rest, k - 1);
      assert t[0].url != t[k].url && rest[k - 1] == t[k];
      assert t[..k] + t[k + 1..] == [t[0]] + (rest[..k - 1] + rest[k..]);
    }
  }

  /** The table read as a map */
  ghost function NodesOf(t: Table): (m: Nodes)
    requires UniqueUrls(t)
    ensures forall i :: 0 <= i < |t| ==> t[i].url in m && m[t[i].url] == t[i]
    ensures forall u :: u in m ==> m[u] in t && m[u].url == u
    ensures forall u :: u in m <==> Known(t, u)
  {
    map i | 0 <= i < |t| :: t[i].url := t[i]
  }

  lemma WithoutLast(xs: seq<string>, x: string)
    requires x !in xs
    ensures Without(xs + [x], x) == xs
  {
    hide Without;
    var ys := xs + [x];
    WithoutOne(ys, |xs|);
    assert ys[..|xs|] + ys[|xs| + 1..] == xs;
  }

  /** Taking a child away undoes giving one; the counter goes down by one modulo 2^32 whether the child is there or
      not. */
  lemma RemoveUndoesMap(x: ClientPivot, c: string)
    requires x.refcount < U32_MODULUS
    ensures c !in x.child ==> x.MapTo(c).RemoveFrom(c) == x
    ensures (x.RemoveFrom(c).refcount + 1) % U32_MODULUS == x.refcount
  {
    hide Without;
    if c !in x.child { WithoutLast(x.child, c); }
  }

  // ----- what it means to be a tree -----

  datatype Overlay = Overlay(root: string, at: Nodes)

  /** A record is consistent in itself. */
  ghost predicate SoundRecord(x: ClientPivot, url: string) {
    x.url == url && x.refcount == |x.child| && x.depth >= 0 && NoDup(x.child)
  }

  ghost predicate Sound(o: Overlay) {
    forall u :: u in o.at ==> SoundRecord(o.at[u], u)
  }

  /** A record names only known nodes, one level down. */
  ghost predicate Linked(o: Overlay) {
    forall u, c {:trigger c in o.at[u].child} :: u in o.at && c in o.at[u].child ==>
      c in o.at && c != o.root && o.at[c].depth == o.at[u].depth + 1
  }

  ghost predicate OneParent(o: Overlay) {
    forall u, v, c {:trigger c in o.at[u].child, c in o.at[v].child} ::
      u in o.at && v in o.at && c in o.at[u].child && c in o.at[v].child ==> u == v
  }

  ghost predicate HasParent(o: Overlay, v: string) {
    exists u {:trigger v in o.at[u].child} :: u in o.at && v in o.at[u].child
  }

  ghost predicate IsTree(o: Overlay) {
    && o.root in o.at && o.at[o.root].depth == 0
    && Sound(o)
    && Linked(o)
    && OneParent(o)
    && forall v {:trigger HasParent(o, v)} :: v in o.at && v != o.root ==> HasParent(o, v)
  }

  type Tree = o: Overlay | IsTree(o) ghost witness Overlay("", map["" := ClientPivot("", 0, [], 0)])

  /** The invariant of `known_client` */
  ghost predicate Spanning(t: Table, root: string) {
    UniqueUrls(t) && IsTree(Overlay(root, NodesOf(t)))
  }

  ghost function TreeOf(t: Table, root: string): Tree
    requires Spanning(t, root)
  {
    Overlay(root, NodesOf(t))
  }

  /** No node is deeper than h. */
  ghost predicate Bounded(o: Overlay, h: int) {
    forall u :: u in o.at ==> o.at[u].depth <= h
  }

  /** No node has more than k children. */
  ghost predicate FanOut(o: Overlay, k: nat) {
    forall u :: u in o.at ==> |o.at[u].child| <= k
  }

  ghost function Parent(o: Overlay, v: string): (u: string)
    requires HasParent(o, v)
    ensures u in o.at && v in o.at[u].child
  {
    var u :| u in o.at && v in o.at[u].child;
    u
  }

  /** The number of nodes strictly deeper than d: it shrinks on the way down. */
  ghost function Deeper(o: Overlay, d: int): nat {
    |set u | u in o.at && o.at[u].depth > d|
  }

  lemma DeeperShrinks(o: Overlay, u: string, c: string)
    requires u in o.at && c in o.at && o.at[c].depth > o.at[u].depth
    ensures Deeper(o, o.at[c].depth) < Deeper(o, o.at[u].depth)
  {
    var a, b := set v | v in o.at && o.at[v].depth > o.at[u].depth, set v | v in o.at && o.at[v].depth > o.at[c].depth;
    assert c in a && c !in b && b <= a;
    SubsetSize(b, a - {c});
  }

  ghost function Urls(t: Table): (s: set<string>) {
    set i | 0 <= i < |t| :: t[i].url
  }

  lemma UrlsSize(t: Table)
    requires UniqueUrls(t)
    ensures |Urls(t)| == |t|
  {
    if t != [] {
      var front, last := t[..|t| - 1], t[|t| - 1];
      UrlsSize(front);
      assert forall i :: 0 <= i < |front| ==> front[i] == t[i];
      assert Urls(t) == Urls(front) + {last.url};
    }
  }

  lemma NodesSize(t: Table)
    requires UniqueUrls(t)
    ensures |NodesOf(t)| == |NodesOf(t).Keys| == |t|
  {
    UrlsSize(t);
    assert NodesOf(t).Keys == Urls(t);
  }

  /** A map that agrees with every record and has no other key is the table read as a map. */
  lemma NodesAre(t: Table, m: Nodes)
    requires UniqueUrls(t)
    requires forall x {:trigger x in t} :: x in t ==> x.url in m && m[x.url] == x
    requires forall u :: u in m ==> m[u] in t && m[u].url == u
    ensures NodesOf(t) == m
  {
    var n := NodesOf(t);
    forall u | u in m ensures u in n {
      var i :| 0 <= i < |t| && t[i] == m[u];
    }
  }

  lemma FindIsLookup(t: Table, u: string)
    requires UniqueUrls(t)
    ensures Find(t, u) < |t| <==> u in NodesOf(t)
    ensures u in NodesOf(t) ==> t[Find(t, u)] == NodesOf(t)[u]
  {
    if Known(t, u) {
      var i :| 0 <= i < |t| && t[i].url == u;
    }
  }

  // ----- ancestry and reachability -----

  /** u lies on the chain of parents that starts at v. */
  ghost predicate Ancestor(o: Tree, u: string, v: string)
    requires v in o.at
    decreases o.at[v].depth
  {
    u == v || (v != o.root && Ancestor(o, u, Parent(o, v)))
  }

  /** Every known node is reachable from the root. */
  lemma {:induction false} RootReachesAll(o: Tree, v: string)
    requires v in o.at
    ensures Ancestor(o, o.root, v)
    decreases o.at[v].depth
  {
    if v != o.root {
      RootReachesAll(o, Parent(o, v));
    }
  }

  /** An ancestor is known, and strictly shallower unless it is the node itself. */
  lemma {:induction false} AncestorShallower(o: Tree, u: string, v: string)
    requires v in o.at && Ancestor(o, u, v)
    ensures u in o.at && (u == v || o.at[u].depth < o.at[v].depth)
    decreases o.at[v].depth
  {
    if u != v {
      AncestorShallower(o, u, Parent(o, v));
    }
  }

  ghost predicate BelowSome(o: Tree, cs: seq<string>, v: string)
    requires v in o.at
  {
    exists i {:trigger Ancestor(o, cs[i], v)} :: 0 <= i < |cs| && Ancestor(o, cs[i], v)
  }

  /** Below u means u itself or below one of its children. */
  lemma {:induction false} AncestorUnfold(o: Tree, u: string, v: string)
    requires u in o.at && v in o.at
    ensures Ancestor(o, u, v) <==> u == v || BelowSome(o, o.at[u].child, v)
    decreases o.at[v].depth
  {
    if v != o.root {
      var p := Parent(o, v);
      AncestorUnfold(o, u, p);
      if Ancestor(o, u, p) && u != v {
        if u == p {
          var i :| 0 <= i < |o.at[u].child| && o.at[u].child[i] == v;
          assert Ancestor(o, o.at[u].child[i], v);
        } else {
          var i :| 0 <= i < |o.at[u].child| && Ancestor(o, o.at[u].child[i], p);
          assert Ancestor(o, o.at[u].child[i], v);
        }
      }
      if i :| 0 <= i < |o.at[u].child| && Ancestor(o, o.at[u].child[i], v) {
        if o.at[u].child[i] == v {
          assert v in o.at[u].child;
          assert p == u;
        } else {
          assert Ancestor(o, o.at[u].child[i], p);
        }
      }
    } else {
      forall i | 0 <= i < |o.at[u].child| ensures !Ancestor(o, o.at[u].child[i], v) {
        assert o.at[u].child[i] in o.at[u].child;
      }
    }
  }

  /** Two children of one node have no common descendant. */
  lemma {:induction false} SiblingsDisjoint(o: Tree, u: string, a: string, b: string, v: string)
    requires u in o.at && v in o.at
    requires a in o.at[u].child && b in o.at[u].child
    requires Ancestor(o, a, v) && Ancestor(o, b, v)
    ensures a == b
    decreases o.at[v].depth
  {
    AncestorShallower(o, a, v);
    AncestorShallower(o, b, v);
    if a != b && a != v && b != v {
      SiblingsDisjoint(o, u, a, b, Parent(o, v));
    }
  }

  /** The set of nodes on v's chain of parents: one per level, so a stored depth is a true distance. */
  ghost function Chain(o: Tree, v: string): (s: set<string>)
    requires v in o.at
    ensures s <= o.at.Keys
    ensures forall u :: u in s ==> o.at[u].depth <= o.at[v].depth
    decreases o.at[v].depth
  {
    if v == o.root then {v} else Chain(o, Parent(o, v)) + {v}
  }

  lemma {:induction false} ChainLength(o: Tree, v: string)
    requires v in o.at
    ensures |Chain(o, v)| == o.at[v].depth + 1
    decreases o.at[v].depth
  {
    if v != o.root {
      ChainLength(o, Parent(o, v));
      assert v !in Chain(o, Parent(o, v));
    }
  }

  lemma SubsetSize<T>(a: set<T>, b: set<T>)
    requires a <= b
    ensures |a| <= |b|
  {
    assert b == a + (b - a);
  }

  /** A stored depth is below the number of nodes. */
  lemma DepthBelowSize(t: Table, root: string, u: string)
    requires Spanning(t, root) && u in NodesOf(t)
    ensures 0 <= NodesOf(t)[u].depth < |t|
  {
    var o := TreeOf(t, root);
    ChainLength(o, u);
    SubsetSize(Chain(o, u), o.at.Keys);
    NodesSize(t);
  }

  // ----- descendants and subtree sizes -----

  ghost function Descendants(o: Tree, u: string): set<string>
  {
    set v | v in o.at && Ancestor(o, u, v)
  }

  /** The sum that `get_subtree_size` computes: one for the node, then its children in turn */
  ghost function Size(o: Tree, u: string): nat
    requires u in o.at
    decreases Deeper(o, o.at[u].depth), 1, 0
  {
    1 + SizeSum(o, u, |o.at[u].child|)
  }

  ghost function SizeSum(o: Tree, u: string, n: nat): nat
    requires u in o.at && n <= |o.at[u].child|
    decreases Deeper(o, o.at[u].depth), 0, n
  {
    if n == 0 then 0 else
      var c := o.at[u].child[n - 1];
      assert c in o.at[u].child;
      DeeperShrinks(o, u, c);
      SizeSum(o, u, n - 1) + Size(o, c)
  }

  ghost function DescendantsOfSome(o: Tree, cs: seq<string>): set<string>
  {
    set v | v in o.at && BelowSome(o, cs, v)
  }

  /** The recursive sum is the number of descendants, the node included. */
  lemma {:induction false} SizeCountsDescendants(o: Tree, u: string)
    requires u in o.at
    ensures Size(o, u) == |Descendants(o, u)|
    decreases Deeper(o, o.at[u].depth), 1, 0
  {
    var cs := o.at[u].child;
    SizeSumCounts(o, u, |cs|);
    assert cs[..|cs|] == cs;
    var below := DescendantsOfSome(o, cs);
    forall v | v in o.at
      ensures v in Descendants(o, u) <==> v in {u} + below
    {
      AncestorUnfold(o, u, v);
    }
    assert Descendants(o, u) == {u} + below;
    assert u !in below by {
      if i :| 0 <= i < |cs| && Ancestor(o, cs[i], u) {
        assert cs[i] in cs;
        AncestorShallower(o, cs[i], u);
        assert false;
      }
    }
  }

  lemma BelowSomePrefix(o: Tree, cs: seq<string>, n: nat, v: string)
    requires v in o.at && 0 < n <= |cs|
    ensures BelowSome(o, cs[..n], v) <==>
            BelowSome(o, cs[..n - 1], v) || Ancestor(o, cs[n - 1], v)
  {
    var long, short := cs[..n], cs[..n - 1];
    assert forall i :: 0 <= i < n - 1 ==> long[i] == short[i];
    assert long[n - 1] == cs[n - 1];
    if BelowSome(o, short, v) {
      var i :| 0 <= i < |short| && Ancestor(o, short[i], v);
      assert Ancestor(o, long[i], v);
    }
    if BelowSome(o, long, v) {
      var i :| 0 <= i < |long| && Ancestor(o, long[i], v);
      if i < n - 1 { assert Ancestor(o, short[i], v); }
    }
  }

  lemma DescendantsSplit(o: Tree, u: string, n: nat)
    requires u in o.at && 0 < n <= |o.at[u].child|
    ensures var cs := o.at[u].child;
            |DescendantsOfSome(o, cs[..n])| == |DescendantsOfSome(o, cs[..n - 1])| + |Descendants(o, cs[n - 1])|
  {
    var cs := o.at[u].child;
    var short := cs[..n - 1];
    var before, here := DescendantsOfSome(o, short), Descendants(o, cs[n - 1]);
    forall v | v in o.at && BelowSome(o, short, v) && Ancestor(o, cs[n - 1], v)
      ensures false
    {
      var i :| 0 <= i < |short| && Ancestor(o, short[i], v);
      SiblingsDisjoint(o, u, cs[i], cs[n - 1], v);
    }
    forall v | v in o.at
      ensures BelowSome(o, cs[..n], v) <==> BelowSome(o, short, v) || Ancestor(o, cs[n - 1], v)
    {
      BelowSomePrefix(o, cs, n, v);
    }
    assert before !! here && DescendantsOfSome(o, cs[..n]) == before + here;
  }

  lemma {:induction false} SizeSumCounts(o: Tree, u: string, n: nat)
    requires u in o.at && n <= |o.at[u].child|
    ensures SizeSum(o, u, n) == |DescendantsOfSome(o, o.at[u].child[..n])|
    decreases Deeper(o, o.at[u].depth), 0, n
  {
    var cs := o.at[u].child;
    if n == 0 {
      assert DescendantsOfSome(o, cs[..0]) == {};
    } else {
      var c := cs[n - 1];
      assert c in cs;
      DeeperShrinks(o, u, c);
      SizeSumCounts(o, u, n - 1);
      SizeCountsDescendants(o, c);
      DescendantsSplit(o, u, n);
    }
  }

  /** The root's subtree is the whole table. */
  lemma RootSize(t: Table, root: string)
    requires Spanning(t, root)
    ensures Size(TreeOf(t, root), root) == |t|
  {
    var o := TreeOf(t, root);
    SizeCountsDescendants(o, root);
    forall v | v in o.at ensures v in Descendants(o, root) {
      RootReachesAll(o, v);
    }
    assert Descendants(o, root) == o.at.Keys;
    NodesSize(t);
  }

  lemma SizeAtMost(t: Table, root: string, u: string)
    requires Spanning(t, root) && u in NodesOf(t)
    ensures 1 <= Size(TreeOf(t, root), u) <= |t|
  {
    var o := TreeOf(t, root);
    SizeCountsDescendants(o, u);
    SubsetSize(Descendants(o, u), o.at.Keys);
    NodesSize(t);
  }
}
