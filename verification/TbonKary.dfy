/** Joins with a branch limit: the new node goes below the shallowest node that is not full.

    Under joins alone the tree fills level by level, and no tree of the same fan-out and at least as
    many nodes is lower.
 */
module TbonKary {
  import opened Basics
  import opened TbonTable
  import opened TbonRepair

  /** `min_by_key(|v| v.get_depth_if_not_full(max_branches))`: the first of the least keys */
  function Shallowest(t: Table, maxBranches: nat): (r: nat)
    requires t != []
    ensures r < |t|
    ensures forall i :: 0 <= i < |t| ==> t[r].DepthIfNotFull(maxBranches) <= t[i].DepthIfNotFull(maxBranches)
    ensures forall i :: 0 <= i < r ==> t[r].DepthIfNotFull(maxBranches) < t[i].DepthIfNotFull(maxBranches)
  {
    if |t| == 1 then 0 else
      var r := Shallowest(t[..|t| - 1], maxBranches);
      assert forall i :: 0 <= i < |t| - 1 ==> t[i] == t[..|t| - 1][i];
      if t[|t| - 1].DepthIfNotFull(maxBranches) < t[r].DepthIfNotFull(maxBranches) then |t| - 1 else r
  }

  function JoinKary(t: Table, maxBranches: nat, url: string): Table
    requires t != []
  {
    Attach(t, Shallowest(t, maxBranches), url)
  }

  lemma DeepestIsLeaf(t: Table, root: string) returns (x: ClientPivot)
    requires Spanning(t, root)
    ensures x in t && x.child == []
  {
    hide LastDeepest;
    DeepestInTree(t, root);
    x := t[LastDeepest(t)];
    ParentNotDeepest(TreeOf(t, root), x.url);
  }

  /** Among records with depths in range, one of which is a leaf, the key finds the shallowest that is not full. */
  lemma ShallowestIsFree(t: Table, maxBranches: nat, leaf: ClientPivot)
    requires maxBranches % U32_MODULUS != 0 && leaf in t && leaf.child == []
    requires forall x :: x in t ==> x.refcount == |x.child| && x.depth < I32_MAX
    ensures var p := t[Shallowest(t, maxBranches)];
            && |p.child| < maxBranches % U32_MODULUS
            && forall x :: x in t && |x.child| < maxBranches % U32_MODULUS ==> p.depth <= x.depth
  {
    hide Shallowest;
    var p := t[Shallowest(t, maxBranches)];
    assert p in t;
    forall x | x in t ensures p.DepthIfNotFull(maxBranches) <= x.DepthIfNotFull(maxBranches) {
      var i :| 0 <= i < |t| && t[i] == x;
    }
    assert leaf.DepthIfNotFull(maxBranches) == leaf.depth;
  }

  /** In every tree some node has a free slot, so the `i32::MAX` key of a full node never wins and a
      join attaches at the least depth among the nodes that are not full. */
  lemma JoinsShallowestFree(t: Table, root: string, maxBranches: nat)
    requires Spanning(t, root) && |t| <= I32_MAX
    requires maxBranches % U32_MODULUS != 0
    ensures t != []
    ensures var p := t[Shallowest(t, maxBranches)];
            && |p.child| < maxBranches % U32_MODULUS
            && forall x :: x in t && |x.child| < maxBranches % U32_MODULUS ==> p.depth <= x.depth
  {
    hide Spanning, Shallowest;
    var leaf := DeepestIsLeaf(t, root);
    forall x | x in t ensures x.refcount == |x.child| && x.depth < I32_MAX {
      SpanningRecord(t, root, x);
      ShallowEnough(t, root, x);
    }
    ShallowestIsFree(t, maxBranches, leaf);
  }

  lemma KidsKnown(o: Tree, u: string)
    requires u in o.at
    ensures |o.at[u].child| < |o.at.Keys|
    ensures 0 <= o.at[u].depth && o.at[o.root].depth == 0
  {
    assert SoundRecord(o.at[u], u);
    var kids := set c | c in o.at[u].child;
    assert kids <= o.at.Keys - {o.root};
    hide IsTree;
    NoDupSize(o.at[u].child);
    SubsetSize(kids, o.at.Keys - {o.root});
  }

  lemma FewChildren(t: Table, root: string, x: ClientPivot)
    requires Spanning(t, root) && x in t
    ensures |x.child| < |t| && 0 <= x.depth && (x.url == root ==> x.depth == 0)
  {
    hide IsTree;
    var i :| 0 <= i < |t| && t[i] == x;
    KidsKnown(TreeOf(t, root), x.url);
    NodesSize(t);
  }

  /** Under a branch limit of 2^32 or more no node is ever full, so every join belongs below the root.  The
      comparison sees the limit modulo 2^32: the root is chosen only until it has that many children, or when that
      number is zero. */
  lemma LargeLimitTruncated(t: Table, root: string, maxBranches: nat)
    requires Spanning(t, root) && |t| <= I32_MAX && t != [] && t[0].url == root && maxBranches >= U32_MODULUS
    ensures forall x :: x in t ==> |x.child| < maxBranches && t[0].depth <= x.depth
    ensures Shallowest(t, maxBranches) == 0 <==>
            maxBranches % U32_MODULUS == 0 || |t[0].child| < maxBranches % U32_MODULUS
  {
    hide Shallowest, Spanning;
    var k := maxBranches % U32_MODULUS;
    forall x | x in t ensures |x.child| < |t| && t[0].depth == 0 <= x.depth < I32_MAX && x.refcount == |x.child| {
      FewChildren(t, root, t[0]);
      FewChildren(t, root, x);
      SpanningRecord(t, root, x);
      ShallowEnough(t, root, x);
    }
    if k != 0 {
      JoinsShallowestFree(t, root, maxBranches);
    }
    assert t[0].DepthIfNotFull(maxBranches) == if |t[0].child| < k then 0 else I32_MAX;
  }

  lemma ShallowEnough(t: Table, root: string, x: ClientPivot)
    requires Spanning(t, root) && x in t
    ensures x.depth < |t|
  {
    DepthBelowSize(t, root, x.url);
  }

  // ----- level by level -----

  /** Every node above level L is full and nothing is deeper than L + 1. */
  ghost predicate Filled(o: Overlay, k: nat, L: nat) {
    && FanOut(o, k)
    && Bounded(o, L + 1)
    && forall u :: u in o.at && o.at[u].depth < L ==> |o.at[u].child| == k
  }

  lemma AttachedFilled(o: Tree, parent: string, url: string, k: nat, L: nat) returns (L': nat)
    requires Filled(o, k, L) && parent in o.at && url !in o.at && |o.at[parent].child| < k
    requires forall u :: u in o.at && |o.at[u].child| < k ==> o.at[parent].depth <= o.at[u].depth
    ensures Filled(Overlay(o.root, AttachedAt(o.at, parent, url)), k, L')
  {
    var d := o.at[parent].depth;
    L' := if d == L + 1 then L + 1 else L;
    var m := AttachedAt(o.at, parent, url);
    forall u | u in m
      ensures |m[u].child| <= k && m[u].depth <= L' + 1 && (m[u].depth < L' ==> |m[u].child| == k)
    {
      assert u != url ==> m[u].depth == o.at[u].depth;
      assert u == url ==> m[u].depth == d + 1;
    }
  }

  lemma JoinKeepsFilled(t: Table, root: string, maxBranches: nat, url: string, L: nat) returns (L': nat)
    requires Spanning(t, root) && |t| <= I32_MAX && !Known(t, url)
    requires maxBranches % U32_MODULUS != 0
    requires Filled(TreeOf(t, root), maxBranches % U32_MODULUS, L)
    ensures t != [] && Spanning(JoinKary(t, maxBranches, url), root)
    ensures Filled(TreeOf(JoinKary(t, maxBranches, url), root), maxBranches % U32_MODULUS, L')
  {
    JoinsShallowestFree(t, root, maxBranches);
    var i := Shallowest(t, maxBranches);
    AttachKeepsTree(t, root, i, url);
    AttachNodes(t, i, url);
    L' := AttachedFilled(TreeOf(t, root), t[i].url, url, maxBranches % U32_MODULUS, L);
  }

  ghost function Level(o: Overlay, d: int): set<string> {
    set u | u in o.at && o.at[u].depth == d
  }

  ghost function UpTo(o: Overlay, d: int): set<string> {
    set u | u in o.at && o.at[u].depth <= d
  }

  /** 1 + k + ... + k^d */
  function Geometric(k: nat, d: nat): nat {
    if d == 0 then 1 else Geometric(k, d - 1) + Pow(k, d)
  }

  ghost function ChildrenOf(o: Tree, S: set<string>): set<string>
    requires S <= o.at.Keys
  {
    set c | c in o.at && (exists u :: u in S && c in o.at[u].child)
  }

  lemma NoDupSize(xs: seq<string>)
    requires NoDup(xs)
    ensures |set x | x in xs| == |xs|
  {
    if xs != [] {
      var front, last := xs[..|xs| - 1], xs[|xs| - 1];
      assert NoDup(front) && last !in front;
      NoDupSize(front);
      assert xs == front + [last];
      assert (set x | x in xs) == (set x | x in front) + {last};
    }
  }

  lemma ChildrenSplit(o: Tree, S: set<string>, u: string)
    requires S <= o.at.Keys && u in S
    ensures |ChildrenOf(o, S)| == |ChildrenOf(o, S - {u})| + |o.at[u].child|
  {
    var rest := S - {u};
    var mine := set c | c in o.at[u].child;
    assert SoundRecord(o.at[u], u);
    NoDupSize(o.at[u].child);
    assert ChildrenOf(o, S) == ChildrenOf(o, rest) + mine;
    assert ChildrenOf(o, rest) !! mine;
  }

  lemma MulStep(k: nat, a: nat)
    ensures k * (a + 1) == k * a + k
  {
  }

  /** k children each at most, or exactly, for each of a set of nodes */
  lemma {:induction false} ChildrenCount(o: Tree, S: set<string>, k: nat)
    requires S <= o.at.Keys && FanOut(o, k)
    ensures |ChildrenOf(o, S)| <= k * |S|
    ensures (forall u :: u in S ==> |o.at[u].child| == k) ==> |ChildrenOf(o, S)| == k * |S|
    decreases |S|
  {
    if S == {} {
      assert ChildrenOf(o, S) == {};
    } else {
      var u :| u in S;
      ChildrenCount(o, S - {u}, k);
      ChildrenSplit(o, S, u);
      assert |S| == |S - {u}| + 1;
      MulStep(k, |S - {u}|);
    }
  }

  lemma NextLevel(o: Tree, d: nat)
    ensures ChildrenOf(o, Level(o, d)) == Level(o, d + 1)
  {
    var S := Level(o, d);
    forall c | c in Level(o, d + 1) ensures c in ChildrenOf(o, S) {
      assert HasParent(o, c);
      var u := Parent(o, c);
      assert u in S && c in o.at[u].child;
    }
  }

  lemma LevelZero(o: Tree)
    ensures Level(o, 0) == {o.root}
  {
    forall u | u in o.at && u != o.root ensures o.at[u].depth > 0 {
      assert HasParent(o, u);
      assert u in o.at[Parent(o, u)].child && SoundRecord(o.at[Parent(o, u)], Parent(o, u));
    }
  }

  /** Level d of any tree with fan-out k holds at most k^d nodes; exactly k^d below a filled one. */
  lemma {:induction false} LevelSize(o: Tree, k: nat, L: nat, d: nat)
    requires FanOut(o, k)
    ensures |Level(o, d)| <= Pow(k, d)
    ensures Filled(o, k, L) && d <= L ==> |Level(o, d)| == Pow(k, d)
  {
    if d == 0 {
      LevelZero(o);
    } else {
      LevelSize(o, k, L, d - 1);
      NextLevel(o, d - 1);
      ChildrenCount(o, Level(o, d - 1), k);
      MulMonotone(k, |Level(o, d - 1)|, Pow(k, d - 1));
    }
  }

  lemma MulMonotone(k: nat, a: nat, b: nat)
    requires a <= b
    ensures k * a <= k * b
  {
  }

  lemma {:induction false} UpToSize(o: Tree, k: nat, L: nat, d: nat)
    requires FanOut(o, k)
    ensures |UpTo(o, d)| <= Geometric(k, d)
    ensures Filled(o, k, L) && d <= L ==> |UpTo(o, d)| == Geometric(k, d)
  {
    LevelSize(o, k, L, d);
    if d == 0 {
      assert forall u :: u in o.at ==> SoundRecord(o.at[u], u);
      assert UpTo(o, 0) == Level(o, 0);
    } else {
      UpToSize(o, k, L, d - 1);
      assert UpTo(o, d) == UpTo(o, d - 1) + Level(o, d);
    }
  }

  /** A tree filled level by level is as low as any tree of that fan-out with at least as many nodes. */
  lemma FilledIsLowest(o: Tree, k: nat, L: nat, other: Tree, h: nat)
    requires Filled(o, k, L)
    requires FanOut(other, k) && |other.at.Keys| >= |o.at.Keys| && Bounded(other, h)
    ensures Bounded(o, h)
  {
    if h <= L {
      UpToSize(o, k, L, h);
      UpToSize(other, k, L, h);
      assert UpTo(other, h) == other.at.Keys;
      var low := UpTo(o, h);
      assert low <= o.at.Keys && |low| >= |o.at.Keys|;
      SubsetEqual(low, o.at.Keys);
    }
  }

  lemma SubsetEqual<T>(a: set<T>, b: set<T>)
    requires a <= b && |a| >= |b|
    ensures a == b
  {
    assert b == a + (b - a);
  }

  // ----- every sequence of joins -----

  /** The table after the given URLs joined in turn */
  function JoinsKary(root: string, maxBranches: nat, urls: seq<string>): (t: Table)
    ensures |t| == |urls| + 1
  {
    if urls == [] then [ClientPivot(root, 0, [], 0)]
    else JoinKary(JoinsKary(root, maxBranches, urls[..|urls| - 1]), maxBranches, urls[|urls| - 1])
  }

  ghost predicate FreshUrls(root: string, urls: seq<string>) {
    NoDup(urls) && root !in urls
  }

  lemma {:induction false} JoinedUrls(root: string, maxBranches: nat, urls: seq<string>, u: string)
    ensures Known(JoinsKary(root, maxBranches, urls), u) <==> u == root || u in urls
  {
    hide Shallowest;
    var t := JoinsKary(root, maxBranches, urls);
    if urls == [] {
      assert t[0].url == root;
    } else {
      var front := urls[..|urls| - 1];
      JoinedUrls(root, maxBranches, front, u);
      var s := JoinsKary(root, maxBranches, front);
      assert forall i :: 0 <= i < |s| ==> t[i].url == s[i].url;
      assert t[|s|].url == urls[|urls| - 1];
      assert urls == front + [urls[|urls| - 1]];
    }
  }

  lemma LoneRoot(root: string)
    ensures Spanning([ClientPivot(root, 0, [], 0)], root)
    ensures NodesOf([ClientPivot(root, 0, [], 0)]) == map[root := ClientPivot(root, 0, [], 0)]
  {
    NodesAre([ClientPivot(root, 0, [], 0)], map[root := ClientPivot(root, 0, [], 0)]);
  }

  /** After any sequence of fresh joins the tree is filled up to some level, level d <= L holds k^d nodes,
      and no tree with fan-out k and as many nodes is lower. */
  lemma {:induction false} JoinsFillLevels(root: string, maxBranches: nat, urls: seq<string>) returns (L: nat)
    requires FreshUrls(root, urls) && |urls| < I32_MAX
    requires maxBranches % U32_MODULUS != 0
    ensures Spanning(JoinsKary(root, maxBranches, urls), root)
    ensures Filled(TreeOf(JoinsKary(root, maxBranches, urls), root), maxBranches % U32_MODULUS, L)
  {
    var t := JoinsKary(root, maxBranches, urls);
    if urls == [] {
      LoneRoot(root);
      L := 0;
    } else {
      var front, last := urls[..|urls| - 1], urls[|urls| - 1];
      L := JoinsFillLevels(root, maxBranches, front);
      JoinedUrls(root, maxBranches, front, last);
      L := JoinKeepsFilled(JoinsKary(root, maxBranches, front), root, maxBranches, last, L);
    }
  }

  /** Level d holds k^d nodes for every d up to L, and the rest of the nodes are on level L + 1. */
  lemma JoinsLevelSizes(root: string, maxBranches: nat, urls: seq<string>) returns (L: nat)
    requires FreshUrls(root, urls) && |urls| < I32_MAX
    requires maxBranches % U32_MODULUS != 0
    ensures var t, k := JoinsKary(root, maxBranches, urls), maxBranches % U32_MODULUS;
            && Spanning(t, root)
            && (forall d: nat :: d <= L ==> |Level(TreeOf(t, root), d)| == Pow(k, d))
            && |Level(TreeOf(t, root), L + 1)| == |urls| + 1 - Geometric(k, L)
            && Bounded(TreeOf(t, root), L + 1)
  {
    L := JoinsFillLevels(root, maxBranches, urls);
    hide Level, UpTo, FanOut, JoinsKary, Geometric;
    var t, k := JoinsKary(root, maxBranches, urls), maxBranches % U32_MODULUS;
    var o := TreeOf(t, root);
    forall d: nat | d <= L ensures |Level(o, d)| == Pow(k, d) {
      LevelSize(o, k, L, d);
    }
    UpToSize(o, k, L, L);
    LastLevel(o, L);
    NodesSize(t);
  }

  lemma LastLevel(o: Tree, L: nat)
    requires Bounded(o, L + 1)
    ensures |o.at.Keys| == |UpTo(o, L)| + |Level(o, L + 1)|
  {
    assert o.at.Keys == UpTo(o, L) + Level(o, L + 1);
  }

  /** The consequences for the shape of the tree, stated without the fill level */
  lemma JoinsAreLowest(root: string, maxBranches: nat, urls: seq<string>, other: Table, h: nat)
    requires FreshUrls(root, urls) && |urls| < I32_MAX
    requires maxBranches % U32_MODULUS != 0
    requires Spanning(other, root) && |other| > |urls|
    requires FanOut(TreeOf(other, root), maxBranches % U32_MODULUS) && Bounded(TreeOf(other, root), h)
    ensures Spanning(JoinsKary(root, maxBranches, urls), root)
    ensures Bounded(TreeOf(JoinsKary(root, maxBranches, urls), root), h)
  {
    var L := JoinsFillLevels(root, maxBranches, urls);
    var t := JoinsKary(root, maxBranches, urls);
    NodesSize(t);
    NodesSize(other);
    FilledIsLowest(TreeOf(t, root), maxBranches % U32_MODULUS, L, TreeOf(other, root), h);
  }
}
