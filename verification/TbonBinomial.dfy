/** Joins without a branch limit: `add_node_to_subtree` and the binomial tree it builds.

    `Place` follows the recursive search of the server.  The reference is `Partial(n)`, the binomial
    tree cut off after n nodes; the main result is that n - 1 fresh joins build exactly that tree.
 */
module TbonBinomial {
  import opened Basics
  import opened TbonTable
  import opened TbonRepair
  import opened TbonKary

  lemma {:induction false} Pow2Increases(a: nat, b: nat)
    requires a < b
    ensures 2 * Pow2(a) <= Pow2(b)
  {
    if a < b - 1 { Pow2Increases(a, b - 1); }
  }

  lemma Pow2Monotone(a: nat, b: nat)
    ensures a <= b ==> Pow2(a) <= Pow2(b)
  {
    if a < b { Pow2Increases(a, b); }
  }

  // ----- the search -----

  type Subtrees = seq<(string, nat)>

  /** `subtrees.retain(|(u, _)| u != &found)` */
  function Drop(subs: Subtrees, url: string): (r: Subtrees)
    ensures |r| <= |subs|
    ensures forall x :: x in r <==> x in subs && x.0 != url
  {
    if subs == [] then [] else
      var rest := Drop(subs[1..], url);
      assert subs == [subs[0]] + subs[1..];
      if subs[0].0 == url then rest else [subs[0]] + rest
  }

  /** The URL of the first subtree of the given size; empty when there is none */
  function FirstOfSize(subs: Subtrees, size: nat): (r: string)
    ensures r != "" ==> (r, size) in subs
    ensures r == "" ==> forall x :: x in subs && x.1 == size ==> ("", size) in subs
  {
    if subs == [] then ""
    else
      assert subs == [subs[0]] + subs[1..];
      if subs[0].1 == size then assert subs[0] == (subs[0].0, size); subs[0].0
      else FirstOfSize(subs[1..], size)
  }

  /** The URL of the first subtree below the given size */
  function FirstSmaller(subs: Subtrees, size: nat): (r: Option<string>)
    ensures r.Some? ==> exists x :: x in subs && x.0 == r.value && x.1 < size
    ensures r.None? ==> forall x :: x in subs ==> x.1 >= size
  {
    if subs == [] then None
    else
      assert subs == [subs[0]] + subs[1..];
      if subs[0].1 < size then assert subs[0] in subs; Some(subs[0].0)
      else FirstSmaller(subs[1..], size)
  }

  /** Attach here, or look further below one of the children with a smaller order */
  datatype Outcome = Stay | Descend(order: nat, url: string)

  /** The subtrees still considered in an iteration: the one found last is dropped. */
  function Remaining(subs: Subtrees, found: string): Subtrees {
    if found != "" then Drop(subs, found) else subs
  }

  /** The loop over i of `add_node_to_subtree`, from iteration i on */
  function Scan(subs: Subtrees, i: nat, order: nat, found: string): (r: Outcome)
    ensures r.Descend? ==> i <= r.order < order && exists x :: x in subs && x.0 == r.url
    decreases order - i
  {
    if i >= order then Stay
    else
      var subs1 := Remaining(subs, found);
      var hit := FirstOfSize(subs1, Pow2(i));
      if hit != "" then Scan(subs1, i + 1, order, hit)
      else
        match FirstSmaller(subs1, Pow2(i))
        case Some(url) => Descend(i, url)
        case None => Scan(subs1, i + 1, order, "")
  }

  /** Each child with the size of its subtree, truncated to 32 bits */
  ghost function SubtreesOf(o: Tree, u: string, n: nat): (r: Subtrees)
    requires u in o.at && n <= |o.at[u].child|
    ensures |r| == n
    ensures forall i :: 0 <= i < n ==> o.at[u].child[i] in o.at
    ensures forall i :: 0 <= i < n ==> r[i] == (o.at[u].child[i], Size(o, o.at[u].child[i]) % U32_MODULUS)
  {
    if n == 0 then [] else
      assert o.at[u].child[n - 1] in o.at[u].child;
      SubtreesOf(o, u, n - 1) + [(o.at[u].child[n - 1], Size(o, o.at[u].child[n - 1]) % U32_MODULUS)]
  }

  ghost function ScanAt(o: Tree, u: string, order: nat): (r: Outcome)
    requires u in o.at
    ensures r.Descend? ==> r.order < order && r.url in o.at[u].child && r.url in o.at
  {
    var r := Scan(SubtreesOf(o, u, |o.at[u].child|), 0, order, "");
    assert r.Descend? ==> r.url in o.at[u].child;
    r
  }

  /** The node `add_node_to_subtree` returns: always a known node below u, found on smaller and smaller
      orders whatever the shape of the tree. */
  ghost function Place(o: Tree, order: nat, u: string): (r: string)
    requires u in o.at
    ensures r in o.at
    decreases order
  {
    if order == 0 then u else
      match ScanAt(o, u, order)
      case Stay => u
      case Descend(i, c) => Place(o, i, c)
  }

  // ----- shapes -----

  datatype Shape = Node(kids: seq<Shape>)

  /** The ordered tree hanging below a node */
  ghost function ShapeAt(o: Tree, u: string): Shape
    requires u in o.at
    decreases Deeper(o, o.at[u].depth), 1, 0
  {
    Node(ShapesOf(o, u, |o.at[u].child|))
  }

  ghost function ShapesOf(o: Tree, u: string, n: nat): (r: seq<Shape>)
    requires u in o.at && n <= |o.at[u].child|
    ensures |r| == n
    decreases Deeper(o, o.at[u].depth), 0, n
  {
    if n == 0 then [] else
      var c := o.at[u].child[n - 1];
      assert c in o.at[u].child;
      DeeperShrinks(o, u, c);
      ShapesOf(o, u, n - 1) + [ShapeAt(o, c)]
  }

  lemma {:induction false} ShapeOfChild(o: Tree, u: string, n: nat, i: nat)
    requires u in o.at && i < n <= |o.at[u].child|
    ensures o.at[u].child[i] in o.at
    ensures ShapesOf(o, u, n)[i] == ShapeAt(o, o.at[u].child[i])
  {
    assert o.at[u].child[i] in o.at[u].child;
    if i < n - 1 { ShapeOfChild(o, u, n - 1, i); }
  }

  function Weight(s: Shape): nat
    decreases s, 1
  {
    1 + Weights(s.kids)
  }

  function Weights(ss: seq<Shape>): nat
    decreases ss, 0
  {
    if ss == [] then 0 else Weights(ss[..|ss| - 1]) + Weight(ss[|ss| - 1])
  }

  lemma {:induction false} SizeIsWeight(o: Tree, u: string)
    requires u in o.at
    ensures Size(o, u) == Weight(ShapeAt(o, u))
    decreases Deeper(o, o.at[u].depth), 1, 0
  {
    SizeSumIsWeights(o, u, |o.at[u].child|);
  }

  lemma {:induction false} SizeSumIsWeights(o: Tree, u: string, n: nat)
    requires u in o.at && n <= |o.at[u].child|
    ensures SizeSum(o, u, n) == Weights(ShapesOf(o, u, n))
    decreases Deeper(o, o.at[u].depth), 0, n
  {
    if n > 0 {
      var c := o.at[u].child[n - 1];
      assert c in o.at[u].child;
      DeeperShrinks(o, u, c);
      SizeSumIsWeights(o, u, n - 1);
      SizeIsWeight(o, c);
      assert ShapesOf(o, u, n)[..n - 1] == ShapesOf(o, u, n - 1);
    }
  }

  // ----- the binomial tree and its n-node beginning -----

  /** [B_0, ..., B_{j-1}] */
  function Completes(j: nat): (r: seq<Shape>)
    ensures |r| == j
    decreases j, 0
  {
    if j == 0 then [] else Completes(j - 1) + [Complete(j - 1)]
  }

  /** The binomial tree B_j of 2^j nodes */
  function Complete(j: nat): Shape
    decreases j, 1
  {
    Node(Completes(j))
  }

  /** The least j with n <= 2^j */
  function Rank(n: nat): (j: nat)
    requires n >= 1
    ensures n <= Pow2(j)
    ensures j > 0 ==> Pow2(j - 1) < n
    ensures j == 0 <==> n == 1
  {
    if n == 1 then 0 else 1 + Rank((n + 1) / 2)
  }

  lemma RankUnique(n: nat, j: nat)
    requires n >= 1 && n <= Pow2(j) && (j > 0 ==> Pow2(j - 1) < n)
    ensures Rank(n) == j
  {
    var r := Rank(n);
    if r < j {
      if r < j - 1 { Pow2Increases(r, j - 1); }
    } else if j < r {
      if j < r - 1 { Pow2Increases(j, r - 1); }
    }
  }

  /** The partial binomial tree of n nodes: complete trees of 1, 2, ..., 2^(j-2) nodes, then the partial
      tree of what remains beyond 2^(j-1) */
  function Partial(n: nat): (s: Shape)
    requires n >= 1
    ensures |s.kids| == Rank(n)
  {
    if n == 1 then Node([])
    else
      var j := Rank(n);
      Node(Completes(j - 1) + [Partial(n - Pow2(j - 1))])
  }

  lemma {:induction false} CompletesWeight(j: nat)
    ensures Weights(Completes(j)) == Pow2(j) - 1
  {
    if j > 0 {
      CompletesWeight(j - 1);
      assert Completes(j)[..j - 1] == Completes(j - 1);
    }
  }

  lemma {:induction false} PartialWeight(n: nat)
    requires n >= 1
    ensures Weight(Partial(n)) == n
  {
    if n > 1 {
      var j := Rank(n);
      PartialWeight(n - Pow2(j - 1));
      CompletesWeight(j - 1);
      assert Partial(n).kids[..j - 1] == Completes(j - 1);
    }
  }

  /** At a power of two the partial tree is the complete one. */
  lemma {:induction false} PartialAtPower(j: nat)
    ensures Partial(Pow2(j)) == Complete(j)
  {
    RankUnique(Pow2(j), j);
    if j > 0 {
      PartialAtPower(j - 1);
    }
  }

  lemma {:induction false} CompleteAt(j: nat, i: nat)
    requires i < j
    ensures Completes(j)[i] == Complete(i)
  {
    if i < j - 1 { CompleteAt(j - 1, i); }
  }

  // ----- one join -----

  ghost predicate DistinctUrls(subs: Subtrees) {
    && (forall i, j :: 0 <= i < j < |subs| ==> subs[i].0 != subs[j].0)
    && forall i :: 0 <= i < |subs| ==> subs[i].0 != ""
  }

  lemma DropHead(subs: Subtrees)
    requires subs != [] && DistinctUrls(subs)
    ensures Drop(subs, subs[0].0) == subs[1..]
  {
    DropAbsent(subs[1..], subs[0].0);
  }

  lemma DropAbsent(subs: Subtrees, url: string)
    requires forall i :: 0 <= i < |subs| ==> subs[i].0 != url
    ensures Drop(subs, url) == subs
  {
  }

  lemma {:induction false} ScanEmpty(subs: Subtrees, i: nat, order: nat, found: string)
    requires Remaining(subs, found) == []
    ensures Scan(subs, i, order, found) == Stay
    decreases order - i
  {
    if i < order { ScanEmpty([], i + 1, order, ""); }
  }

  lemma ScanHit(subs: Subtrees, i: nat, order: nat, found: string)
    requires i < order && Remaining(subs, found) != []
    requires Remaining(subs, found)[0].0 != "" && Remaining(subs, found)[0].1 == Pow2(i)
    ensures Scan(subs, i, order, found) == Scan(Remaining(subs, found), i + 1, order, Remaining(subs, found)[0].0)
  {
  }

  lemma ScanMiss(subs: Subtrees, i: nat, order: nat, found: string)
    requires i < order && |Remaining(subs, found)| == 1
    requires Remaining(subs, found)[0].1 < Pow2(i)
    ensures Scan(subs, i, order, found) == Descend(i, Remaining(subs, found)[0].0)
  {
    var r := Remaining(subs, found);
    assert r[1..] == [];
    assert FirstOfSize(r, Pow2(i)) == "";
  }

  /** Sizes 2^i, 2^(i+1), ..., 2^(j-2), and a last one of at most 2^(j-1) */
  ghost predicate Ladder(r: Subtrees, i: nat, j: nat) {
    && i < j && |r| == j - i && DistinctUrls(r)
    && (forall k :: 0 <= k < |r| - 1 ==> r[k].1 == Pow2(i + k))
    && r[|r| - 1].1 <= Pow2(j - 1)
  }

  lemma LadderTail(r: Subtrees, i: nat, j: nat)
    requires Ladder(r, i, j) && |r| > 1
    ensures Ladder(r[1..], i + 1, j)
  {
    var tail := r[1..];
    assert forall k :: 0 <= k < |tail| ==> tail[k] == r[k + 1];
    forall k | 0 <= k < |tail| - 1 ensures tail[k].1 == Pow2(i + 1 + k) {
      assert tail[k] == r[k + 1] && r[k + 1].1 == Pow2(i + (k + 1));
    }
  }

  /** On a ladder the loop walks up and decides at the last size. */
  lemma {:induction false} ScanLadder(subs: Subtrees, r: Subtrees, i: nat, j: nat, order: nat, found: string)
    requires r == Remaining(subs, found) && j <= order && Ladder(r, i, j)
    ensures Scan(subs, i, order, found) ==
            if r[|r| - 1].1 == Pow2(j - 1) then Stay else Descend(j - 1, r[|r| - 1].0)
    decreases j - i
  {
    hide Scan, Pow2, Drop, FirstOfSize, FirstSmaller;
    DropHead(r);
    if |r| > 1 {
      assert r[0].1 == Pow2(i + 0);
      ScanHit(subs, i, order, found);
      LadderTail(r, i, j);
      ScanLadder(r, r[1..], i + 1, j, order, r[0].0);
    } else if r[0].1 == Pow2(i) {
      ScanHit(subs, i, order, found);
      ScanEmpty(r, i + 1, order, r[0].0);
    } else {
      ScanMiss(subs, i, order, found);
    }
  }

  lemma KidWeight(n: nat, i: nat)
    requires n > 1 && i < Rank(n)
    ensures Weight(Partial(n).kids[i]) == if i < Rank(n) - 1 then Pow2(i) else n - Pow2(Rank(n) - 1)
  {
    hide Pow2, Completes, Weights, Rank;
    var j := Rank(n);
    if i < j - 1 {
      CompleteAt(j - 1, i);
      CompletesWeight(i);
    } else {
      PartialWeight(n - Pow2(j - 1));
    }
  }

  lemma SubtreeOfPartial(o: Tree, u: string, n: nat, i: nat)
    requires u in o.at && n > 1 && ShapeAt(o, u) == Partial(n) && i < Rank(n) && Fits(o)
    ensures |o.at[u].child| == Rank(n)
    ensures SubtreesOf(o, u, |o.at[u].child|)[i] ==
            (o.at[u].child[i], if i < Rank(n) - 1 then Pow2(i) else n - Pow2(Rank(n) - 1))
  {
    var cs := o.at[u].child;
    assert |cs| == |ShapeAt(o, u).kids|;
    hide IsTree, Partial, Rank, Pow2, Size, Weight;
    ShapeOfChild(o, u, |cs|, i);
    SizeIsWeight(o, cs[i]);
    KidWeight(n, i);
  }

  /** Subtree sizes fit in 32 bits. */
  ghost predicate Fits(o: Tree) {
    forall c :: c in o.at ==> Size(o, c) < U32_MODULUS
  }

  /** No child of u has an empty URL. */
  ghost predicate NamedAt(o: Tree, u: string)
    requires u in o.at
  {
    "" !in o.at[u].child
  }

  /** No node below u has an empty URL. */
  ghost predicate NamedBelow(o: Tree, u: string) {
    forall v :: v in o.at && Ancestor(o, u, v) ==> NamedAt(o, v)
  }

  lemma LadderOfPartial(o: Tree, u: string, n: nat)
    requires u in o.at && n > 1 && ShapeAt(o, u) == Partial(n) && Fits(o) && NamedAt(o, u)
    ensures |o.at[u].child| == Rank(n)
    ensures Ladder(SubtreesOf(o, u, |o.at[u].child|), 0, Rank(n))
    ensures SubtreesOf(o, u, |o.at[u].child|)[Rank(n) - 1] ==
            (o.at[u].child[Rank(n) - 1], n - Pow2(Rank(n) - 1))
  {
    var cs, j := o.at[u].child, Rank(n);
    SubtreeOfPartial(o, u, n, 0);
    var subs := SubtreesOf(o, u, |cs|);
    forall i | 0 <= i < j - 1 ensures subs[i].1 == Pow2(0 + i) {
      SubtreeOfPartial(o, u, n, i);
    }
    SubtreeOfPartial(o, u, n, j - 1);
    assert SoundRecord(o.at[u], u);
    forall i | 0 <= i < j ensures subs[i].0 == cs[i] && cs[i] in cs {
    }
    assert DistinctUrls(subs);
  }

  /** What the loop decides at a node whose subtree is a partial binomial tree of n nodes */
  ghost function Decision(o: Tree, u: string, n: nat): Outcome
    requires u in o.at && n >= 1
  {
    var cs := o.at[u].child;
    if n == Pow2(Rank(n)) || cs == [] then Stay else Descend(|cs| - 1, cs[|cs| - 1])
  }

  lemma ScanLarger(o: Tree, u: string, order: nat, n: nat)
    requires u in o.at && n > 1 && ShapeAt(o, u) == Partial(n) && order >= Rank(n)
    requires Fits(o) && NamedAt(o, u) && |o.at[u].child| == Rank(n)
    ensures ScanAt(o, u, order) == Decision(o, u, n)
  {
    hide IsTree, Scan, Ladder, Fits, NamedAt, ShapeAt, Partial, Pow2;
    var subs := SubtreesOf(o, u, |o.at[u].child|);
    LadderOfPartial(o, u, n);
    ScanLadder(subs, subs, 0, Rank(n), order, "");
    PowerEnd(n);
  }

  lemma ScanPartial(o: Tree, u: string, order: nat, n: nat)
    requires u in o.at && n >= 1 && ShapeAt(o, u) == Partial(n) && order >= Rank(n)
    requires Fits(o) && NamedAt(o, u)
    ensures |o.at[u].child| == Rank(n)
    ensures ScanAt(o, u, order) == Decision(o, u, n)
  {
    hide IsTree, Scan, Fits, NamedAt;
    assert |o.at[u].child| == |ShapeAt(o, u).kids|;
    if n == 1 {
      ScanEmpty(SubtreesOf(o, u, |o.at[u].child|), 0, order, "");
    } else {
      ScanLarger(o, u, order, n);
    }
  }

  lemma PowerEnd(n: nat)
    requires n > 1
    ensures n == Pow2(Rank(n)) <==> n - Pow2(Rank(n) - 1) == Pow2(Rank(n) - 1)
  {
  }

  ghost function AttachedTree(o: Tree, parent: string, url: string): Tree
    requires parent in o.at && url !in o.at
  {
    AttachedIsTree(o, parent, url);
    Overlay(o.root, AttachedAt(o.at, parent, url))
  }

  /** A join changes the shape only on the way from the root to the new node. */
  lemma {:induction false} ShapeElsewhere(o: Tree, parent: string, url: string, v: string)
    requires parent in o.at && url !in o.at && v in o.at && !Ancestor(o, v, parent)
    ensures ShapeAt(AttachedTree(o, parent, url), v) == ShapeAt(o, v)
    decreases Deeper(o, o.at[v].depth), 1, 0
  {
    forall i | 0 <= i < |o.at[v].child| ensures !Ancestor(o, o.at[v].child[i], parent) {
      AncestorUnfold(o, v, parent);
      assert Ancestor(o, o.at[v].child[i], parent) ==> BelowSome(o, o.at[v].child, parent);
    }
    ShapesElsewhere(o, parent, url, v, |o.at[v].child|);
  }

  lemma {:induction false} ShapesElsewhere(o: Tree, parent: string, url: string, v: string, n: nat)
    requires parent in o.at && url !in o.at && v in o.at && n <= |o.at[v].child|
    requires forall i :: 0 <= i < n ==> !Ancestor(o, o.at[v].child[i], parent)
    ensures v in AttachedTree(o, parent, url).at && n <= |AttachedTree(o, parent, url).at[v].child|
    ensures ShapesOf(AttachedTree(o, parent, url), v, n) == ShapesOf(o, v, n)
    decreases Deeper(o, o.at[v].depth), 0, n
  {
    if n > 0 {
      var c := o.at[v].child[n - 1];
      assert c in o.at[v].child;
      DeeperShrinks(o, v, c);
      ShapesElsewhere(o, parent, url, v, n - 1);
      ShapeElsewhere(o, parent, url, c);
      assert AttachedTree(o, parent, url).at[v].child[n - 1] == c;
    }
  }

  lemma ChildNotAbove(o: Tree, p: string, c: string)
    requires p in o.at && c in o.at[p].child
    ensures !Ancestor(o, c, p)
  {
    if Ancestor(o, c, p) {
      AncestorShallower(o, c, p);
    }
  }

  /** The new node is a leaf and the last child of its parent. */
  lemma ShapeAtParent(o: Tree, parent: string, url: string)
    requires parent in o.at && url !in o.at
    ensures ShapeAt(AttachedTree(o, parent, url), parent) == Node(ShapeAt(o, parent).kids + [Node([])])
  {
    hide IsTree, Ancestor;
    var o' := AttachedTree(o, parent, url);
    var n := |o.at[parent].child|;
    forall i | 0 <= i < n ensures !Ancestor(o, o.at[parent].child[i], parent) {
      ChildNotAbove(o, parent, o.at[parent].child[i]);
    }
    ShapesElsewhere(o, parent, url, parent, n);
    assert o'.at[parent].child[n] == url && o'.at[url].child == [];
    assert ShapeAt(o', url) == Node([]);
  }

  /** Above the parent, only the child on the way to it changes shape. */
  lemma ShapeAbove(o: Tree, parent: string, url: string, v: string)
    requires parent in o.at && url !in o.at && v in o.at && o.at[v].child != []
    requires v != parent
    requires var c := o.at[v].child[|o.at[v].child| - 1]; Ancestor(o, c, parent)
    ensures var n := |o.at[v].child|;
            var c := o.at[v].child[n - 1];
            && c in o.at
            && ShapeAt(AttachedTree(o, parent, url), v) ==
               Node(ShapeAt(o, v).kids[..n - 1] + [ShapeAt(AttachedTree(o, parent, url), c)])
  {
    var o' := AttachedTree(o, parent, url);
    var cs := o.at[v].child;
    var c := cs[|cs| - 1];
    assert c in cs && SoundRecord(o.at[v], v);
    forall i | 0 <= i < |cs| - 1 ensures !Ancestor(o, cs[i], parent) {
      assert cs[i] in cs && cs[i] != c;
      if Ancestor(o, cs[i], parent) { SiblingsDisjoint(o, v, cs[i], c, parent); }
    }
    ShapesElsewhere(o, parent, url, v, |cs| - 1);
    assert o'.at[v].child == cs;
    assert ShapesOf(o, v, |cs|)[..|cs| - 1] == ShapesOf(o, v, |cs| - 1);
  }

  lemma GrowComplete(n: nat)
    requires n >= 1 && n == Pow2(Rank(n))
    ensures Partial(n + 1) == Node(Partial(n).kids + [Node([])])
  {
    hide Completes, Rank;
    RankUnique(n + 1, Rank(n) + 1);
    PartialAtPower(Rank(n));
    assert Partial(1) == Node([]);
  }

  lemma GrowPartial(n: nat)
    requires n > 1 && n != Pow2(Rank(n))
    ensures var j := Rank(n);
            Partial(n + 1) == Node(Partial(n).kids[..j - 1] + [Partial(n - Pow2(j - 1) + 1)])
  {
    hide Completes, Complete, Rank, Pow2;
    var j := Rank(n);
    assert j > 0;
    RankUnique(n + 1, j);
    assert Partial(n).kids[..j - 1] == Completes(j - 1);
    assert Partial(n + 1) == Node(Completes(j - 1) + [Partial(n + 1 - Pow2(j - 1))]);
  }

  /** Below a complete tree the new node becomes another child of its root. */
  lemma PlaceStays(o: Tree, u: string, order: nat, n: nat)
    requires u in o.at && n >= 1 && ShapeAt(o, u) == Partial(n) && order >= Rank(n)
    requires Fits(o) && NamedAt(o, u) && n == Pow2(Rank(n))
    ensures Place(o, order, u) == u && Ancestor(o, u, u)
  {
    ScanPartial(o, u, order, n);
  }

  /** Where the search goes when the tree below u is not complete */
  lemma PlaceDescends(o: Tree, u: string, order: nat, n: nat) returns (c: string, s: nat)
    requires u in o.at && n >= 1 && ShapeAt(o, u) == Partial(n) && order >= Rank(n)
    requires Fits(o) && NamedAt(o, u) && n != Pow2(Rank(n))
    ensures n > 1 && |o.at[u].child| == Rank(n)
    ensures c == o.at[u].child[Rank(n) - 1] && c in o.at[u].child && c in o.at
    ensures s == n - Pow2(Rank(n) - 1) && 1 <= s < n && Rank(s) <= Rank(n) - 1
    ensures ShapeAt(o, c) == Partial(s)
    ensures Place(o, order, u) == Place(o, Rank(n) - 1, c)
  {
    hide IsTree, Rank, Scan, Ladder, SubtreesOf, Fits, NamedAt, ScanAt;
    var j := Rank(n);
    ScanPartial(o, u, order, n);
    c, s := o.at[u].child[j - 1], n - Pow2(j - 1);
    ShapeOfChild(o, u, j, j - 1);
    RankBelow(s, j - 1);
  }

  lemma GrowBelow(o: Tree, u: string, c: string, p: string, url: string, n: nat)
    requires u in o.at && n > 1 && ShapeAt(o, u) == Partial(n) && n != Pow2(Rank(n))
    requires |o.at[u].child| == Rank(n) && c == o.at[u].child[Rank(n) - 1] && c in o.at
    requires p in o.at && p != u && url !in o.at && Ancestor(o, c, p)
    requires ShapeAt(AttachedTree(o, p, url), c) == Partial(n - Pow2(Rank(n) - 1) + 1)
    ensures ShapeAt(AttachedTree(o, p, url), u) == Partial(n + 1)
  {
    GrowPartial(n);
    ShapeAbove(o, p, url, u);
  }

  /** v is node number k below u, in the order in which a partial binomial tree fills: child i of u starts at
      number 2^i. */
  ghost predicate Numbered(o: Tree, u: string, k: nat, v: string)
    requires u in o.at
    decreases k
  {
    if k == 0 then u == v
    else
      var i := Rank(k + 1) - 1;
      i < |o.at[u].child| &&
      var c := o.at[u].child[i];
      c in o.at && Numbered(o, c, k - Pow2(i), v)
  }

  lemma TopBit(k: nat, i: nat)
    requires Pow2(i) <= k < Pow2(i + 1)
    ensures Rank(k + 1) == i + 1
  {
    RankUnique(k + 1, i + 1);
  }

  /** Placed in a partial binomial tree of n nodes, a new leaf makes it the one of n + 1 nodes and is the last in
      number. */
  lemma {:induction false} PlaceGrows(o: Tree, u: string, order: nat, n: nat, url: string)
    requires u in o.at && n >= 1 && ShapeAt(o, u) == Partial(n) && order >= Rank(n)
    requires url !in o.at && Fits(o) && NamedBelow(o, u)
    ensures Ancestor(o, u, Place(o, order, u))
    ensures ShapeAt(AttachedTree(o, Place(o, order, u), url), u) == Partial(n + 1)
    ensures Numbered(AttachedTree(o, Place(o, order, u), url), u, n, url)
    decreases n
  {
    hide Place, ScanAt, ShapeAt, Partial, Rank, Pow2, Numbered, IsTree;
    assert NamedAt(o, u);
    if n == Pow2(Rank(n)) {
      GrowsHere(o, u, order, n, url);
    } else {
      var c, s := PlaceDescends(o, u, order, n);
      StillNamed(o, u, c);
      PlaceGrows(o, c, Rank(n) - 1, s, url);
      GrowsBelow(o, u, c, Place(o, order, u), url, n);
    }
  }

  lemma GrowsHere(o: Tree, u: string, order: nat, n: nat, url: string)
    requires u in o.at && n >= 1 && ShapeAt(o, u) == Partial(n) && order >= Rank(n) && n == Pow2(Rank(n))
    requires url !in o.at && Fits(o) && NamedAt(o, u)
    ensures Place(o, order, u) == u && Ancestor(o, u, u)
    ensures ShapeAt(AttachedTree(o, u, url), u) == Partial(n + 1) && Numbered(AttachedTree(o, u, url), u, n, url)
  {
    PlaceStays(o, u, order, n);
    LeafAdded(o, u, n, url);
  }

  /** A leaf below the root of a complete tree */
  lemma LeafAdded(o: Tree, u: string, n: nat, url: string)
    requires u in o.at && n >= 1 && ShapeAt(o, u) == Partial(n) && n == Pow2(Rank(n)) && url !in o.at
    ensures ShapeAt(AttachedTree(o, u, url), u) == Partial(n + 1) && Numbered(AttachedTree(o, u, url), u, n, url)
  {
    hide Place, Partial, Rank, IsTree;
    GrowComplete(n);
    ShapeAtParent(o, u, url);
    assert |o.at[u].child| == |ShapeAt(o, u).kids|;
    TopBit(n, Rank(n));
  }

  lemma StillNamed(o: Tree, u: string, c: string)
    requires u in o.at && c in o.at[u].child && c in o.at && NamedBelow(o, u)
    ensures NamedBelow(o, c)
  {
    hide NamedAt, IsTree;
    forall v | v in o.at && Ancestor(o, c, v) ensures NamedAt(o, v) {
      BelowChild(o, u, c, v);
    }
  }

  /** The new node p has grown the last subtree of u. */
  lemma GrowsBelow(o: Tree, u: string, c: string, p: string, url: string, n: nat)
    requires u in o.at && n > 1 && ShapeAt(o, u) == Partial(n) && n != Pow2(Rank(n))
    requires |o.at[u].child| == Rank(n) && c == o.at[u].child[Rank(n) - 1] && c in o.at[u].child && c in o.at
    requires p in o.at && url !in o.at && Ancestor(o, c, p)
    requires ShapeAt(AttachedTree(o, p, url), c) == Partial(n - Pow2(Rank(n) - 1) + 1)
    requires Numbered(AttachedTree(o, p, url), c, n - Pow2(Rank(n) - 1), url)
    ensures Ancestor(o, u, p) && ShapeAt(AttachedTree(o, p, url), u) == Partial(n + 1)
    ensures Numbered(AttachedTree(o, p, url), u, n, url)
  {
    hide ShapeAt, Partial, Rank, IsTree;
    BelowChild(o, u, c, p);
    GrowBelow(o, u, c, p, url, n);
    TopBit(n, Rank(n) - 1);
    assert AttachedTree(o, p, url).at[u].child == o.at[u].child;
  }

  lemma BelowChild(o: Tree, u: string, c: string, v: string)
    requires u in o.at && c in o.at[u].child && v in o.at && Ancestor(o, c, v)
    ensures Ancestor(o, u, v) && v != u
  {
    AncestorShallower(o, c, v);
    var i :| 0 <= i < |o.at[u].child| && o.at[u].child[i] == c;
    assert Ancestor(o, o.at[u].child[i], v);
    AncestorUnfold(o, u, v);
  }

  lemma RankBelow(n: nat, j: nat)
    requires 1 <= n <= Pow2(j)
    ensures Rank(n) <= j
  {
    var r := Rank(n);
    if r > 0 { Pow2Monotone(j, r - 1); }
  }

  // ----- every sequence of joins -----

  /** `/pivot` without a branch limit: the search starts at the root with its number of children. */
  ghost function JoinBinomial(t: Table, root: string, url: string): (r: Table)
    requires Spanning(t, root)
    ensures |r| == |t| + 1
  {
    var o := TreeOf(t, root);
    var p := Place(o, o.at[root].refcount, root);
    FindIsLookup(t, p);
    Attach(t, Find(t, p), url)
  }

  lemma JoinBinomialTree(t: Table, root: string, url: string)
    requires Spanning(t, root) && !Known(t, url)
    ensures Spanning(JoinBinomial(t, root, url), root)
    ensures var o := TreeOf(t, root);
            TreeOf(JoinBinomial(t, root, url), root) == AttachedTree(o, Place(o, o.at[root].refcount, root), url)
  {
    var o := TreeOf(t, root);
    var p := Place(o, o.at[root].refcount, root);
    FindIsLookup(t, p);
    AttachKeepsTree(t, root, Find(t, p), url);
    AttachNodes(t, Find(t, p), url);
  }

  lemma JoinBinomialIs(t: Table, root: string, url: string)
    requires Spanning(t, root)
    ensures var o := TreeOf(t, root);
            && root in o.at && Find(t, Place(o, o.at[root].refcount, root)) < |t|
            && JoinBinomial(t, root, url) == Attach(t, Find(t, Place(o, o.at[root].refcount, root)), url)
  {
    hide Place, Find, Attach;
    var o := TreeOf(t, root);
    FindIsLookup(t, Place(o, o.at[root].refcount, root));
  }

  lemma AttachedUrls(t: Table, p: nat, url: string, u: string)
    requires p < |t|
    ensures Known(Attach(t, p, url), u) <==> Known(t, u) || u == url
  {
    var r := Attach(t, p, url);
    assert forall i :: 0 <= i < |t| ==> r[i].url == t[i].url;
    assert r[|t|].url == url;
  }

  lemma JoinBinomialUrls(t: Table, root: string, url: string, u: string)
    requires Spanning(t, root)
    ensures Known(JoinBinomial(t, root, url), u) <==> Known(t, u) || u == url
  {
    hide Spanning, Place, Find, Attach, Known;
    JoinBinomialIs(t, root, url);
    var o := TreeOf(t, root);
    AttachedUrls(t, Find(t, Place(o, o.at[root].refcount, root)), url, u);
  }

  /** The table after the given URLs joined in turn */
  ghost function JoinsBinomial(root: string, urls: seq<string>): (t: Table)
    requires FreshUrls(root, urls)
    ensures Spanning(t, root) && |t| == |urls| + 1
    ensures forall u :: Known(t, u) ==> u == root || u in urls
  {
    hide Spanning, JoinBinomial;
    if urls == [] then
      LoneRoot(root);
      [ClientPivot(root, 0, [], 0)]
    else
      var front, last := urls[..|urls| - 1], urls[|urls| - 1];
      var s := JoinsBinomial(root, front);
      assert last !in front && last != root;
      JoinBinomialTree(s, root, last);
      var t := JoinBinomial(s, root, last);
      assert forall u :: Known(t, u) ==> u == root || u in urls by {
        forall u | Known(t, u) ensures u == root || u in urls {
          JoinBinomialUrls(s, root, last, u);
        }
      }
      t
  }

  /** The table is the partial binomial tree of all its nodes. */
  ghost predicate IsPartial(t: Table, root: string) {
    t != [] && Spanning(t, root) && ShapeAt(TreeOf(t, root), root) == Partial(|t|)
  }

  lemma RootGrows(o: Tree, n: nat, url: string)
    requires n >= 1 && url !in o.at && Fits(o) && NamedBelow(o, o.root) && ShapeAt(o, o.root) == Partial(n)
    ensures ShapeAt(AttachedTree(o, Place(o, o.at[o.root].refcount, o.root), url), o.root) == Partial(n + 1)
    ensures Numbered(AttachedTree(o, Place(o, o.at[o.root].refcount, o.root), url), o.root, n, url)
  {
    hide Place, Partial, Rank, ShapeAt, AttachedTree, Fits, NamedBelow, Numbered;
    RootOrder(o, n);
    PlaceGrows(o, o.root, o.at[o.root].refcount, n, url);
  }

  /** One join turns the n-node partial binomial tree into the one of n + 1 nodes. */
  lemma JoinGrows(t: Table, root: string, url: string)
    requires IsPartial(t, root) && !Known(t, url) && |t| < U32_MODULUS
    requires root == "" || !Known(t, "")
    ensures IsPartial(JoinBinomial(t, root, url), root)
    ensures Numbered(TreeOf(JoinBinomial(t, root, url), root), root, |t|, url)
  {
    hide Place, Partial, Rank, JoinBinomial, ShapeAt, AttachedTree, Fits, NamedBelow, Numbered;
    JoinBinomialTree(t, root, url);
    NamedInTree(t, root);
    FitsInTable(t, root);
    RootGrows(TreeOf(t, root), |t|, url);
    var o := TreeOf(t, root);
    assert TreeOf(JoinBinomial(t, root, url), root) == AttachedTree(o, Place(o, o.at[root].refcount, root), url);
  }

  lemma RootOrder(o: Tree, n: nat)
    requires n >= 1 && ShapeAt(o, o.root) == Partial(n)
    ensures o.root in o.at && o.at[o.root].refcount == Rank(n)
  {
    assert SoundRecord(o.at[o.root], o.root);
    assert |o.at[o.root].child| == |ShapeAt(o, o.root).kids|;
  }

  lemma FitsInTable(t: Table, root: string)
    requires Spanning(t, root) && |t| < U32_MODULUS
    ensures Fits(TreeOf(t, root))
  {
    hide IsTree;
    forall c | c in TreeOf(t, root).at ensures Size(TreeOf(t, root), c) < U32_MODULUS {
      SizeAtMost(t, root, c);
    }
  }

  lemma NamedInTree(t: Table, root: string)
    requires Spanning(t, root) && (root == "" || !Known(t, ""))
    ensures NamedBelow(TreeOf(t, root), root)
  {
    var o := TreeOf(t, root);
    assert forall v :: v in o.at && "" in o.at[v].child ==> "" in o.at && "" != root;
  }

  lemma LoneShape(root: string)
    ensures IsPartial(JoinsBinomial(root, []), root)
  {
    LoneRoot(root);
  }

  // ----- how wide the root can get -----

  ghost predicate DistinctKeys(subs: Subtrees) {
    forall i, j :: 0 <= i < j < |subs| ==> subs[i].0 != subs[j].0
  }

  /** The sizes of some subtrees, added up */
  function Total(subs: Subtrees): nat {
    if subs == [] then 0 else subs[0].1 + Total(subs[1..])
  }

  lemma {:induction false} TotalAppend(subs: Subtrees, x: (string, nat))
    ensures Total(subs + [x]) == Total(subs) + x.1
  {
    if subs != [] {
      TotalAppend(subs[1..], x);
      assert (subs + [x])[1..] == subs[1..] + [x];
    } else {
      assert (subs + [x])[1..] == [];
    }
  }

  lemma DistinctRest(subs: Subtrees)
    requires DistinctKeys(subs) && subs != []
    ensures DistinctKeys(subs[1..]) && forall x :: x in subs[1..] ==> x.0 != subs[0].0
  {
  }

  lemma DistinctFront(x: (string, nat), rest: Subtrees)
    requires DistinctKeys(rest) && forall y :: y in rest ==> y.0 != x.0
    ensures DistinctKeys([x] + rest)
  {
  }

  /** Keys are distinct, so a named subtree is dropped once, with its size. */
  lemma {:induction false} DropOne(subs: Subtrees, x: (string, nat))
    requires DistinctKeys(subs) && x in subs
    ensures DistinctKeys(Drop(subs, x.0)) && |Drop(subs, x.0)| == |subs| - 1
    ensures Total(Drop(subs, x.0)) == Total(subs) - x.1
  {
    var rest := subs[1..];
    assert subs == [subs[0]] + rest;
    DistinctRest(subs);
    hide DistinctKeys;
    if subs[0].0 == x.0 {
      DropAbsent(rest, x.0);
    } else {
      DropOne(rest, x);
      var d := Drop(rest, x.0);
      DistinctFront(subs[0], d);
      assert Drop(subs, x.0) == [subs[0]] + d && ([subs[0]] + d)[1..] == d;
    }
  }

  ghost predicate AllAtLeast(subs: Subtrees, b: nat) {
    forall x :: x in subs ==> x.1 >= b
  }

  lemma {:induction false} TotalAtLeast(subs: Subtrees, b: nat)
    requires AllAtLeast(subs, b)
    ensures Total(subs) >= |subs| * b
  {
    if subs != [] {
      assert subs == [subs[0]] + subs[1..];
      TotalAtLeast(subs[1..], b);
      Times(|subs| - 1, b, b);
    }
  }

  lemma Times(k: nat, b: nat, c: nat)
    requires b <= c
    ensures (k + 1) * b == k * b + b && k * b <= k * c
  {
  }

  /** The two ways to go on: a named subtree of the right size is set aside, or none is smaller. */
  lemma ScanStays(r: Subtrees, i: nat, order: nat)
    requires i < order && DistinctKeys(r) && Scan(r, i, order, "") == Stay
    ensures var hit := FirstOfSize(r, Pow2(i));
            if hit != "" then (hit, Pow2(i)) in r && Scan(Drop(r, hit), i + 1, order, "") == Stay
            else AllAtLeast(r, Pow2(i)) && Scan(r, i + 1, order, "") == Stay
  {
    hide Pow2;
    var hit := FirstOfSize(r, Pow2(i));
    ScanRemaining(r, i + 1, order, hit);
  }

  lemma ScanRemaining(subs: Subtrees, i: nat, order: nat, found: string)
    ensures Scan(subs, i, order, found) == Scan(Remaining(subs, found), i, order, "")
  {
  }

  /** A loop that decides to stay has seen large subtrees.  It has order - i iterations to go; the subtrees still
      considered, all of size b or more, are k more than that. */
  lemma {:induction false} StayMeansLarge(r: Subtrees, i: nat, order: nat, b: nat, k: nat)
    requires i <= order && DistinctKeys(r) && |r| == order - i + k && b <= Pow2(i) && AllAtLeast(r, b)
    requires Scan(r, i, order, "") == Stay
    ensures Total(r) + Pow2(i) >= Pow2(order) + k * b
    decreases order - i
  {
    hide Pow2, Scan, FirstOfSize, FirstSmaller, DistinctKeys, Drop;
    if i == order {
      TotalAtLeast(r, b);
    } else {
      ScanStays(r, i, order);
      PowDoubles(i);
      var hit := FirstOfSize(r, Pow2(i));
      if hit != "" {
        DropOne(r, (hit, Pow2(i)));
        StayMeansLarge(Drop(r, hit), i + 1, order, b, k);
      } else {
        StayMeansLarge(r, i + 1, order, Pow2(i), k + 1);
        Times(k, b, Pow2(i));
        Times(k, Pow2(i), Pow2(i));
      }
    }
  }

  lemma PowDoubles(i: nat)
    ensures Pow2(i + 1) == 2 * Pow2(i)
  {
  }

  /** What the search sees of the children's sizes is no more than they are. */
  lemma {:induction false} TotalOfSubtrees(o: Tree, u: string, n: nat)
    requires u in o.at && n <= |o.at[u].child|
    ensures Total(SubtreesOf(o, u, n)) <= SizeSum(o, u, n)
  {
    if n > 0 {
      TotalOfSubtrees(o, u, n - 1);
      var c := o.at[u].child[n - 1];
      assert c in o.at[u].child;
      TotalAppend(SubtreesOf(o, u, n - 1), (c, Size(o, c) % U32_MODULUS));
    }
  }

  lemma KeysDistinct(o: Tree, u: string)
    requires u in o.at
    ensures DistinctKeys(SubtreesOf(o, u, |o.at[u].child|))
  {
    assert SoundRecord(o.at[u], u);
    hide IsTree, Size;
  }

  /** A node with at least as many children as the order of the search keeps the newcomer only if there are 2^order
      nodes or more below it: so the exponent of `2u32.pow` stays small. */
  lemma TakesChildWhenFull(o: Tree, u: string, order: nat)
    requires u in o.at && order <= |o.at[u].child| && Place(o, order, u) == u
    ensures Size(o, u) >= Pow2(order)
  {
    hide Pow2, Scan, Place, SubtreesOf, DistinctKeys, IsTree;
    var n := |o.at[u].child|;
    var subs := SubtreesOf(o, u, n);
    PlaceBelow(o, order, u);
    KeysDistinct(o, u);
    TotalOfSubtrees(o, u, n);
    StaysAt(o, u, order);
    StayMeansLarge(subs, 0, order, 0, n - order);
    assert Pow2(0) == 1 by { PowZero(); }
  }

  lemma PowZero()
    ensures Pow2(0) == 1
  {
  }

  lemma StaysAt(o: Tree, u: string, order: nat)
    requires u in o.at && (order > 0 ==> ScanAt(o, u, order).Stay?)
    ensures Scan(SubtreesOf(o, u, |o.at[u].child|), 0, order, "") == Stay
  {
  }

  /** A search that leaves a node ends strictly below it. */
  lemma {:induction false} PlaceBelow(o: Tree, order: nat, u: string)
    requires u in o.at
    ensures o.at[Place(o, order, u)].depth >= o.at[u].depth
    ensures order > 0 && ScanAt(o, u, order).Descend? ==> Place(o, order, u) != u
    decreases order
  {
    if order > 0 && ScanAt(o, u, order).Descend? {
      var d := ScanAt(o, u, order);
      assert d.url in o.at[u].child;
      PlaceBelow(o, d.order, d.url);
    }
  }
}
