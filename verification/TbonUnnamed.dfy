/** Binomial joins in full: what happens when one of the joining nodes has an empty URL.

    `add_node_to_subtree` writes the subtree it found into a string and takes the empty string for "none", so a
    node without a name is found and not found at once.  The shape survives its presence for some numbers of nodes
    and not for others; the main result says exactly for which.
 */
module TbonUnnamed {
  import opened Basics
  import opened TbonTable
  import opened TbonRepair
  import opened TbonKary
  import opened TbonBinomial

  // ----- the loop at the node whose child is unnamed -----

  lemma {:induction false} FirstOfSizeAt(r: Subtrees, k: nat, size: nat)
    requires k < |r| && r[k].1 == size && forall q :: 0 <= q < k ==> r[q].1 != size
    ensures FirstOfSize(r, size) == r[k].0
  {
    if k > 0 {
      FirstOfSizeAt(r[1..], k - 1, size);
    }
  }

  lemma {:induction false} DropAt(r: Subtrees, k: nat)
    requires DistinctKeys(r) && k < |r|
    ensures Drop(r, r[k].0) == r[..k] + r[k + 1..]
  {
    if k == 0 {
      DropAbsent(r[1..], r[0].0);
    } else {
      DropAt(r[1..], k - 1);
      assert r[..k] + r[k + 1..] == [r[0]] + (r[1..][..k - 1] + r[1..][k..]);
    }
  }

  /** A subtree of the right size and with a name is taken out. */
  lemma StepHit(r: Subtrees, k: nat, i: nat, order: nat)
    requires i < order && DistinctKeys(r) && k < |r| && r[k].0 != "" && r[k].1 == Pow2(i)
    requires forall q :: 0 <= q < k ==> r[q].1 != Pow2(i)
    ensures Scan(r, i, order, "") == Scan(r[..k] + r[k + 1..], i + 1, order, "")
  {
    hide Pow2;
    FirstOfSizeAt(r, k, Pow2(i));
    DropAt(r, k);
    ScanRemaining(r, i + 1, order, r[k].0);
  }

  /** Nothing with a name is found. */
  lemma StepBlank(r: Subtrees, i: nat, order: nat)
    requires i < order && FirstOfSize(r, Pow2(i)) == ""
    ensures Scan(r, i, order, "") ==
            if FirstSmaller(r, Pow2(i)).Some? then Descend(i, FirstSmaller(r, Pow2(i)).value)
            else Scan(r, i + 1, order, "")
  {
  }

  lemma BlankAlone(size: nat, i: nat, order: nat)
    requires size < Pow2(i)
    ensures Scan([("", size)], i, order, "") == if i < order then Descend(i, "") else Stay
  {
    if i < order {
      StepBlank([("", size)], i, order);
    }
  }

  /** Child i has no name; the others are as in a partial binomial tree with j children. */
  ghost predicate BlankLadder(subs: Subtrees, i: nat, j: nat) {
    && i < j && |subs| == j && DistinctKeys(subs) && subs[i].0 == ""
    && (forall q :: 0 <= q < j - 1 ==> subs[q].1 == Pow2(q))
    && 1 <= subs[j - 1].1 <= Pow2(j - 1)
  }

  lemma DistinctSlice(subs: Subtrees, k: nat)
    requires DistinctKeys(subs) && k <= |subs|
    ensures DistinctKeys(subs[k..])
  {
  }

  lemma LadderAt(subs: Subtrees, i: nat, j: nat, k: nat)
    requires BlankLadder(subs, i, j) && k < i
    ensures k < |subs| && subs[k].1 == Pow2(k) && subs[k].0 != "" && DistinctKeys(subs[k..])
  {
    hide Pow2;
    DistinctSlice(subs, k);
  }

  lemma UpOne(subs: Subtrees, i: nat, j: nat, k: nat, order: nat)
    requires BlankLadder(subs, i, j) && j <= order && k < i
    ensures k < |subs| && Scan(subs[k..], k, order, "") == Scan(subs[k + 1..], k + 1, order, "")
  {
    hide Scan, Pow2, FirstOfSize, FirstSmaller, Drop, BlankLadder, DistinctKeys;
    LadderAt(subs, i, j, k);
    BlankThere(subs, i, j);
    var r := subs[k..];
    assert r[0] == subs[k];
    StepHit(r, 0, k, order);
    assert r[..0] + r[0 + 1..] == subs[k + 1..];
  }

  /** The loop reaches the unnamed child as it would reach any other. */
  lemma {:induction false} ScanUp(subs: Subtrees, i: nat, j: nat, k: nat, order: nat)
    requires BlankLadder(subs, i, j) && j <= order && k <= i
    ensures Scan(subs, 0, order, "") == Scan(subs[k..], k, order, "")
  {
    hide Scan, BlankLadder;
    BlankThere(subs, i, j);
    if k > 0 {
      ScanUp(subs, i, j, k - 1, order);
      UpOne(subs, i, j, k - 1, order);
    } else {
      assert subs[0..] == subs;
    }
  }

  lemma BlankThere(subs: Subtrees, i: nat, j: nat)
    requires BlankLadder(subs, i, j)
    ensures i < j == |subs|
  {
  }

  lemma PastOne(subs: Subtrees, i: nat, j: nat, k: nat, order: nat)
    requires BlankLadder(subs, i, j) && i < k < j <= order && subs[i].1 == Pow2(i) && subs[k].1 == Pow2(k)
    ensures Scan([subs[i]] + subs[k..], k, order, "") == Scan([subs[i]] + subs[k + 1..], k + 1, order, "")
  {
    var r := [subs[i]] + subs[k..];
    assert DistinctKeys(r);
    assert subs[k].0 != subs[i].0;
    Pow2Increases(i, k);
    hide Scan, Pow2, FirstOfSize, FirstSmaller, Drop, BlankLadder, DistinctKeys;
    assert r[0] == subs[i] && r[1] == subs[k];
    StepHit(r, 1, k, order);
    assert r[..1] + r[1 + 1..] == [subs[i]] + subs[k + 1..];
  }

  /** Past the unnamed child the loop carries it along. */
  lemma {:induction false} ScanPast(subs: Subtrees, i: nat, j: nat, k: nat, order: nat)
    requires BlankLadder(subs, i, j) && j <= order && i < k < j && subs[i].1 == Pow2(i)
    ensures Scan([subs[i]] + subs[k..], k, order, "") ==
            if subs[j - 1].1 < Pow2(j - 1) then Descend(j - 1, "") else if j < order then Descend(j, "") else Stay
    decreases j - k
  {
    hide Scan, Pow2, FirstOfSize, DistinctKeys;
    Pow2Increases(i, k);
    if subs[k].1 == Pow2(k) {
      PastOne(subs, i, j, k, order);
      if k < j - 1 {
        ScanPast(subs, i, j, k + 1, order);
      } else {
        assert [subs[i]] + subs[j..] == [("", subs[i].1)];
        Pow2Increases(i, j);
        BlankAlone(subs[i].1, j, order);
      }
    } else {
      var r := [subs[i]] + subs[k..];
      assert r == [subs[i], subs[k]];
      StepBlank(r, k, order);
    }
  }

  /** What the loop decides there */
  function BlankDecision(i: nat, j: nat, order: nat, size: nat, last: string): Outcome
    requires j >= 1
  {
    if size == Pow2(j - 1) then (if j < order then Descend(j, "") else Stay)
    else if i < j - 1 && size < Pow2(i) then Descend(i, last)
    else Descend(j - 1, "")
  }

  /** The unnamed child is not the last: it is found without a name, and only the last can be smaller. */
  lemma BlankInside(subs: Subtrees, i: nat, j: nat, order: nat)
    requires BlankLadder(subs, i, j) && j <= order && i < j - 1
    ensures Scan(subs[i..], i, order, "") ==
            if subs[j - 1].1 < Pow2(i) then Descend(i, subs[j - 1].0)
            else Scan([subs[i]] + subs[i + 1..], i + 1, order, "")
  {
    hide Scan, Pow2, FirstOfSize, FirstSmaller;
    var r := subs[i..];
    assert r[0] == subs[i] && subs[i].1 == Pow2(i);
    FirstOfSizeAt(r, 0, Pow2(i));
    StepBlank(r, i, order);
    BlankSmaller(subs, i, j);
    assert r == [subs[i]] + subs[i + 1..];
  }

  lemma ScanBlank(subs: Subtrees, i: nat, j: nat, order: nat)
    requires BlankLadder(subs, i, j) && j <= order
    ensures Scan(subs, 0, order, "") == BlankDecision(i, j, order, subs[j - 1].1, subs[j - 1].0)
  {
    hide Scan, Pow2, DistinctKeys;
    ScanUp(subs, i, j, i, order);
    if i == j - 1 {
      BlankLast(subs[i..], i, order);
    } else {
      BlankInside(subs, i, j, order);
      ScanPast(subs, i, j, i + 1, order);
      Pow2Increases(i, j - 1);
    }
  }

  lemma BlankLast(r: Subtrees, i: nat, order: nat)
    requires |r| == 1 && r[0].0 == "" && 1 <= r[0].1 <= Pow2(i) && i < order
    ensures Scan(r, i, order, "") ==
            if r[0].1 < Pow2(i) then Descend(i, "") else if i + 1 < order then Descend(i + 1, "") else Stay
  {
    hide Scan;
    assert r == [("", r[0].1)] && r[1..] == [];
    StepBlank(r, i, order);
    if r[0].1 == Pow2(i) {
      BlankAlone(r[0].1, i + 1, order);
    }
  }

  /** Only the last subtree can be smaller than the unnamed one. */
  lemma BlankSmaller(subs: Subtrees, i: nat, j: nat)
    requires BlankLadder(subs, i, j) && i < j - 1
    ensures FirstSmaller(subs[i..], Pow2(i)) == if subs[j - 1].1 < Pow2(i) then Some(subs[j - 1].0) else None
  {
    var r := subs[i..];
    forall q | 0 <= q < |r| - 1 ensures r[q].1 >= Pow2(i) {
      assert r[q] == subs[i + q] && subs[i + q].1 == Pow2(i + q);
      Pow2Monotone(i, i + q);
    }
    assert r[|r| - 1] == subs[j - 1] && r[|r| - 1] in r;
  }

  lemma BlankLadderOf(o: Tree, u: string, n: nat, i: nat)
    requires u in o.at && n > 1 && ShapeAt(o, u) == Partial(n) && Fits(o)
    requires i < |o.at[u].child| && o.at[u].child[i] == "" && |o.at[u].child| == Rank(n)
    ensures BlankLadder(SubtreesOf(o, u, |o.at[u].child|), i, Rank(n))
    ensures SubtreesOf(o, u, |o.at[u].child|)[Rank(n) - 1] == (o.at[u].child[Rank(n) - 1], n - Pow2(Rank(n) - 1))
  {
    hide Rank, Pow2, Partial, ShapeAt, IsTree, DistinctKeys;
    var cs, j := o.at[u].child, Rank(n);
    SubtreeOfPartial(o, u, n, i);
    KeysDistinct(o, u);
    var subs := SubtreesOf(o, u, |cs|);
    hide SubtreesOf, Fits;
    forall q | 0 <= q < j - 1 ensures subs[q].1 == Pow2(q) {
      SubtreeOfPartial(o, u, n, q);
    }
    SubtreeOfPartial(o, u, n, j - 1);
    LastSize(n);
  }

  lemma LastSize(n: nat)
    requires n > 1
    ensures 1 <= n - Pow2(Rank(n) - 1) <= Pow2(Rank(n) - 1)
  {
  }

  /** What the search decides at the parent of the unnamed node */
  lemma BlankScan(o: Tree, u: string, order: nat, n: nat, i: nat)
    requires u in o.at && n > 1 && ShapeAt(o, u) == Partial(n) && order >= Rank(n) && Fits(o)
    requires i < |o.at[u].child| && o.at[u].child[i] == ""
    ensures |o.at[u].child| == Rank(n)
    ensures ScanAt(o, u, order) == BlankDecision(i, Rank(n), order, n - Pow2(Rank(n) - 1), o.at[u].child[Rank(n) - 1])
  {
    hide Scan, Rank, Pow2, Partial, ShapeAt, BlankLadder, BlankDecision, SubtreesOf, IsTree, Fits;
    SubtreeOfPartial(o, u, n, 0);
    BlankLadderOf(o, u, n, i);
    ScanBlank(SubtreesOf(o, u, |o.at[u].child|), i, Rank(n), order);
  }

  // ----- where the unnamed node is -----

  lemma {:induction false} NumberedBelow(o: Tree, u: string, k: nat, v: string)
    requires u in o.at && Numbered(o, u, k, v)
    ensures v in o.at && Ancestor(o, u, v)
    ensures if k == 0 then v == u else o.at[u].depth < o.at[v].depth
    decreases k
  {
    hide IsTree, Rank, Pow2;
    if k > 0 {
      var c := o.at[u].child[Rank(k + 1) - 1];
      NumberedBelow(o, c, k - Pow2(Rank(k + 1) - 1), v);
      BelowChild(o, u, c, v);
      AncestorShallower(o, u, v);
    }
  }

  /** Below a node that is not above the unnamed one's parent every child has a name. */
  lemma NamedElsewhere(o: Tree, p: string, u: string)
    requires p in o.at && "" in o.at[p].child && u in o.at && !Ancestor(o, u, p)
    ensures NamedBelow(o, u)
  {
    forall v | v in o.at && Ancestor(o, u, v) ensures NamedAt(o, v) {
      assert "" in o.at[v].child ==> v == p;
    }
  }

  lemma NamedBesides(o: Tree, p: string, c: string)
    requires p in o.at && "" in o.at[p].child && c in o.at[p].child && c in o.at
    ensures NamedBelow(o, c) && NamedAt(o, c)
  {
    hide IsTree;
    ChildNotAbove(o, p, c);
    NamedElsewhere(o, p, c);
    assert Ancestor(o, c, c);
  }

  /** The unnamed node is strictly below child i of u: then u's children and all below the others have names. */
  lemma NamedAround(o: Tree, u: string, i: nat, k: nat, l: nat)
    requires u in o.at && i < |o.at[u].child| && l < |o.at[u].child| && k > 0
    requires o.at[u].child[i] in o.at && Numbered(o, o.at[u].child[i], k, "")
    ensures NamedAt(o, u) && o.at[u].child[l] in o.at
    ensures l != i ==> NamedBelow(o, o.at[u].child[l])
  {
    var c, d := o.at[u].child[i], o.at[u].child[l];
    assert c in o.at[u].child && d in o.at[u].child && SoundRecord(o.at[u], u);
    NumberedBelow(o, c, k, "");
    if l != i {
      assert HasParent(o, "");
      var p := Parent(o, "");
      assert Ancestor(o, c, p);
      if Ancestor(o, d, p) { SiblingsDisjoint(o, u, c, d, p); }
      NamedElsewhere(o, p, d);
    }
  }

  // ----- one join -----

  /** Whether the search goes where it should in a partial binomial tree of n nodes whose node number m has no name */
  predicate Right(n: nat, m: nat, order: nat)
    requires n >= 1
    decreases n
  {
    m == 0 || m >= n ||
    var j, i := Rank(n), Rank(m + 1) - 1;
    var s := n - Pow2(j - 1);
    if m == Pow2(i) then if s == Pow2(j - 1) then order == j else i == j - 1 || s < Pow2(i)
    else i == j - 1 && s < Pow2(j - 1) ==> s < n && s >= 1 && Right(s, m - Pow2(i), j - 1)
  }

  lemma TopBits(n: nat, m: nat)
    requires 1 <= m < n
    ensures var j, i := Rank(n), Rank(m + 1) - 1;
            j >= 1 && 0 <= i <= j - 1 && Pow2(i) <= m < Pow2(i + 1) && 1 <= n - Pow2(j - 1) <= Pow2(j - 1)
  {
    RankBelow(m + 1, Rank(n));
  }

  lemma ChildShape(o: Tree, u: string, n: nat, i: nat)
    requires u in o.at && n > 1 && ShapeAt(o, u) == Partial(n) && i < Rank(n)
    ensures |o.at[u].child| == Rank(n) && o.at[u].child[i] in o.at && o.at[u].child[i] in o.at[u].child
    ensures ShapeAt(o, o.at[u].child[i]) == Partial(if i < Rank(n) - 1 then Pow2(i) else n - Pow2(Rank(n) - 1))
  {
    hide Pow2, Rank, IsTree;
    assert |o.at[u].child| == |ShapeAt(o, u).kids|;
    ShapeOfChild(o, u, |o.at[u].child|, i);
    if i < Rank(n) - 1 {
      CompleteAt(Rank(n) - 1, i);
      PartialAtPower(i);
    }
  }

  /** The unnamed node is child i of u. */
  lemma RightAtParent(o: Tree, u: string, order: nat, n: nat, i: nat, url: string)
    requires u in o.at && n > 1 && ShapeAt(o, u) == Partial(n) && order >= Rank(n) && url !in o.at && Fits(o)
    requires i < Rank(n) && Pow2(i) < n && i < |o.at[u].child| && o.at[u].child[i] == ""
    requires var s := n - Pow2(Rank(n) - 1);
             if s == Pow2(Rank(n) - 1) then order == Rank(n) else i == Rank(n) - 1 || s < Pow2(i)
    ensures Ancestor(o, u, Place(o, order, u))
    ensures ShapeAt(AttachedTree(o, Place(o, order, u), url), u) == Partial(n + 1)
  {
    hide Scan, Rank, Pow2, Partial, ShapeAt, IsTree, Fits, SubtreesOf, ScanAt, Numbered;
    var j := Rank(n);
    var s := n - Pow2(j - 1);
    BlankScan(o, u, order, n, i);
    PowerEnd(n);
    LastSize(n);
    if s == Pow2(j - 1) {
      assert Place(o, order, u) == u;
      LeafAdded(o, u, n, url);
      assert Ancestor(o, u, u);
    } else {
      var c := o.at[u].child[j - 1];
      ChildShape(o, u, n, j - 1);
      assert "" in o.at[u].child;
      NamedBesides(o, u, c);
      var k := if i < j - 1 then i else j - 1;
      assert Place(o, order, u) == Place(o, k, c);
      if i < j - 1 { RankBelow(s, i); } else { RankBelow(s, j - 1); }
      PlaceGrows(o, c, k, s, url);
      GrowsBelow(o, u, c, Place(o, k, c), url, n);
    }
  }

  /** The newcomer was placed rightly below the last child. */
  lemma GrowsThrough(o: Tree, u: string, c: string, p: string, url: string, n: nat)
    requires u in o.at && n > 1 && ShapeAt(o, u) == Partial(n) && n != Pow2(Rank(n)) && url !in o.at
    requires |o.at[u].child| == Rank(n) && c == o.at[u].child[Rank(n) - 1] && c in o.at[u].child && c in o.at
    requires p in o.at && Ancestor(o, c, p)
    requires ShapeAt(AttachedTree(o, p, url), c) == Partial(n - Pow2(Rank(n) - 1) + 1)
    ensures Ancestor(o, u, p) && ShapeAt(AttachedTree(o, p, url), u) == Partial(n + 1)
  {
    hide ShapeAt, Partial, Rank, IsTree, Pow2;
    BelowChild(o, u, c, p);
    GrowBelow(o, u, c, p, url, n);
  }

  lemma {:induction false} PlaceRight(o: Tree, u: string, order: nat, n: nat, m: nat, url: string)
    requires u in o.at && n >= 1 && ShapeAt(o, u) == Partial(n) && order >= Rank(n) && url !in o.at && Fits(o)
    requires 1 <= m < n && Numbered(o, u, m, "") && Right(n, m, order)
    ensures Ancestor(o, u, Place(o, order, u))
    ensures ShapeAt(AttachedTree(o, Place(o, order, u), url), u) == Partial(n + 1)
    decreases n
  {
    hide Place, Rank, Pow2, Partial, ShapeAt, IsTree, Fits, Ancestor, AttachedTree;
    TopBits(n, m);
    var j, i := Rank(n), Rank(m + 1) - 1;
    ChildShape(o, u, n, j - 1);
    if m == Pow2(i) {
      RightAtParent(o, u, order, n, i, url);
    } else {
      NamedAround(o, u, i, m - Pow2(i), j - 1);
      PowerEnd(n);
      if n == Pow2(j) {
        GrowsHere(o, u, order, n, url);
      } else {
        var c, s := PlaceDescends(o, u, order, n);
        if i == j - 1 {
          PlaceRight(o, c, j - 1, s, m - Pow2(i), url);
        } else {
          PlaceGrows(o, c, j - 1, s, url);
        }
        GrowsThrough(o, u, c, Place(o, order, u), url, n);
      }
    }
  }

  /** A wrong search ends at the unnamed node, although its subtree is full. */
  lemma WrongAtParent(o: Tree, u: string, order: nat, n: nat, i: nat)
    requires u in o.at && n > 1 && ShapeAt(o, u) == Partial(n) && order >= Rank(n) && Fits(o)
    requires i < Rank(n) && Pow2(i) < n && i < |o.at[u].child| && o.at[u].child[i] == ""
    requires var s := n - Pow2(Rank(n) - 1);
             !if s == Pow2(Rank(n) - 1) then order == Rank(n) else i == Rank(n) - 1 || s < Pow2(i)
    ensures Place(o, order, u) == "" && "" in o.at && ShapeAt(o, "") == Partial(Pow2(i))
  {
    hide Scan, Rank, Pow2, Partial, ShapeAt, IsTree, Fits, SubtreesOf, ScanAt, Numbered;
    var j := Rank(n);
    BlankScan(o, u, order, n, i);
    ChildShape(o, u, n, i);
    NamedBesides(o, u, "");
    RankPow(i);
    var k := if n - Pow2(j - 1) == Pow2(j - 1) then j else j - 1;
    assert Place(o, order, u) == Place(o, k, "");
    PlaceStays(o, "", k, Pow2(i));
  }

  lemma RankPow(i: nat)
    ensures Rank(Pow2(i)) == i
  {
    RankUnique(Pow2(i), i);
  }

  lemma {:induction false} PlaceWrong(o: Tree, u: string, order: nat, n: nat, m: nat) returns (p: string, i: nat)
    requires u in o.at && n >= 1 && ShapeAt(o, u) == Partial(n) && order >= Rank(n) && Fits(o)
    requires 1 <= m < n && Numbered(o, u, m, "") && !Right(n, m, order)
    ensures p in o.at && i < |o.at[p].child| && o.at[p].child[i] == ""
    ensures Place(o, order, u) == "" && "" in o.at && ShapeAt(o, "") == Partial(Pow2(i))
    decreases n
  {
    hide Place, Rank, Pow2, Partial, ShapeAt, IsTree, Fits;
    TopBits(n, m);
    var j := Rank(n);
    i := Rank(m + 1) - 1;
    ChildShape(o, u, n, j - 1);
    if m == Pow2(i) {
      p := u;
      WrongAtParent(o, u, order, n, i);
    } else {
      NamedAround(o, u, i, m - Pow2(i), j - 1);
      PowerEnd(n);
      var c, s := PlaceDescends(o, u, order, n);
      p, i := PlaceWrong(o, c, j - 1, s, m - Pow2(i));
    }
  }

  // ----- a tree that has gone wrong stays wrong -----

  /** Child i of p has more descendants than any partial binomial tree gives it. */
  ghost predicate FatAt(o: Tree, p: string, i: nat) {
    p in o.at && i < |o.at[p].child| && o.at[p].child[i] in o.at && Size(o, o.at[p].child[i]) > Pow2(i)
  }

  ghost predicate Fat(o: Tree) {
    exists p: string, i: nat :: FatAt(o, p, i)
  }

  lemma WrongIsFat(o: Tree, p: string, i: nat, url: string)
    requires p in o.at && i < |o.at[p].child| && o.at[p].child[i] == "" && "" in o.at && url !in o.at
    requires ShapeAt(o, "") == Partial(Pow2(i))
    ensures Fat(AttachedTree(o, "", url))
  {
    hide ShapeAt, Partial, Pow2, Rank, Size;
    var k := AttachedTree(o, "", url);
    RankPow(i);
    LeafAdded(o, "", Pow2(i), url);
    SizeIsWeight(k, "");
    PartialWeight(Pow2(i) + 1);
    assert o.at[p].child[i] in o.at[p].child && p != "";
    assert k.at[p].child == o.at[p].child;
    assert FatAt(k, p, i);
  }

  lemma ParentStays(o: Tree, parent: string, url: string, v: string)
    requires parent in o.at && url !in o.at && v in o.at && v != o.root
    ensures var k := AttachedTree(o, parent, url);
            v in k.at && HasParent(o, v) && HasParent(k, v) && Parent(k, v) == Parent(o, v)
  {
    var k := AttachedTree(o, parent, url);
    assert HasParent(o, v) && HasParent(k, v);
    var p := Parent(o, v);
    assert v in k.at[p].child;
  }

  lemma {:induction false} AncestorStays(o: Tree, parent: string, url: string, u: string, v: string)
    requires parent in o.at && url !in o.at && v in o.at && Ancestor(o, u, v)
    ensures v in AttachedTree(o, parent, url).at && Ancestor(AttachedTree(o, parent, url), u, v)
    decreases o.at[v].depth
  {
    if u != v {
      ParentStays(o, parent, url, v);
      AncestorStays(o, parent, url, u, Parent(o, v));
    }
  }

  /** A join takes nothing away from any subtree. */
  lemma SizeStays(o: Tree, parent: string, url: string, u: string)
    requires parent in o.at && url !in o.at && u in o.at
    ensures u in AttachedTree(o, parent, url).at && Size(AttachedTree(o, parent, url), u) >= Size(o, u)
  {
    hide IsTree, Size;
    var k := AttachedTree(o, parent, url);
    SizeCountsDescendants(o, u);
    SizeCountsDescendants(k, u);
    forall v | v in Descendants(o, u) ensures v in Descendants(k, u) {
      AncestorStays(o, parent, url, u, v);
    }
    SubsetSize(Descendants(o, u), Descendants(k, u));
  }

  lemma FatStays(o: Tree, parent: string, url: string)
    requires parent in o.at && url !in o.at && Fat(o)
    ensures Fat(AttachedTree(o, parent, url))
  {
    hide IsTree, Size, Pow2;
    var p: string, i: nat :| FatAt(o, p, i);
    SizeStays(o, parent, url, o.at[p].child[i]);
    assert FatAt(AttachedTree(o, parent, url), p, i);
  }

  /** In a partial binomial tree every subtree is one. */
  lemma {:induction false} PartialBelow(o: Tree, n: nat, v: string) returns (k: nat)
    requires n >= 1 && ShapeAt(o, o.root) == Partial(n) && v in o.at
    ensures k >= 1 && ShapeAt(o, v) == Partial(k)
    decreases o.at[v].depth
  {
    hide ShapeAt, Partial, Rank, Pow2;
    if v == o.root {
      k := n;
    } else {
      assert HasParent(o, v);
      var p := Parent(o, v);
      assert v in o.at[p].child;
      var l := PartialBelow(o, n, p);
      var i :| 0 <= i < |o.at[p].child| && o.at[p].child[i] == v;
      k := ChildOfPartial(o, p, l, i);
    }
  }

  lemma ChildOfPartial(o: Tree, p: string, l: nat, i: nat) returns (k: nat)
    requires p in o.at && l >= 1 && ShapeAt(o, p) == Partial(l) && i < |o.at[p].child|
    ensures o.at[p].child[i] in o.at && 1 <= k <= Pow2(i) && ShapeAt(o, o.at[p].child[i]) == Partial(k)
  {
    hide Pow2, IsTree;
    assert |o.at[p].child| == |ShapeAt(o, p).kids| == Rank(l);
    hide ShapeAt, Partial, Rank;
    LastSize(l);
    ChildShape(o, p, l, i);
    k := if i < Rank(l) - 1 then Pow2(i) else l - Pow2(Rank(l) - 1);
  }

  lemma FatIsNotPartial(o: Tree, n: nat)
    requires n >= 1 && Fat(o)
    ensures ShapeAt(o, o.root) != Partial(n)
  {
    hide Pow2, ShapeAt, Partial, Size;
    if ShapeAt(o, o.root) == Partial(n) {
      var p: string, i: nat :| FatAt(o, p, i);
      var l := PartialBelow(o, n, p);
      var k := ChildOfPartial(o, p, l, i);
      SizeIsWeight(o, o.at[p].child[i]);
      PartialWeight(k);
    }
  }

  // ----- every sequence of joins -----

  lemma {:induction false} NumberedStays(o: Tree, parent: string, url: string, u: string, k: nat, v: string)
    requires parent in o.at && url !in o.at && u in o.at && Numbered(o, u, k, v)
    ensures u in AttachedTree(o, parent, url).at && Numbered(AttachedTree(o, parent, url), u, k, v)
    decreases k
  {
    hide Rank, Pow2, IsTree;
    if k > 0 {
      var i := Rank(k + 1) - 1;
      assert AttachedTree(o, parent, url).at[u].child[i] == o.at[u].child[i];
      NumberedStays(o, parent, url, o.at[u].child[i], k - Pow2(i), v);
    }
  }

  /** With n nodes the search is right although node number m + 1, the m-th to join, has no name. */
  predicate RightAt(n: nat, m: nat)
    requires n >= 1
  {
    Right(n, m + 1, Rank(n))
  }

  /** Every join after an unnamed one is searched for rightly. */
  ghost predicate RightJoins(urls: seq<string>) {
    forall m, n :: 0 <= m < |urls| && urls[m] == "" && m + 1 < n <= |urls| ==> RightAt(n, m)
  }

  ghost predicate UnnamedAt(o: Tree, urls: seq<string>) {
    o.root in o.at && forall m :: 0 <= m < |urls| && urls[m] == "" ==> Numbered(o, o.root, m + 1, "")
  }

  /** The join that follows an unnamed one */
  lemma JoinAfterUnnamed(t: Table, root: string, m: nat, url: string)
    requires IsPartial(t, root) && !Known(t, url) && |t| < U32_MODULUS && 1 <= m < |t|
    requires Numbered(TreeOf(t, root), root, m, "")
    ensures Spanning(JoinBinomial(t, root, url), root)
    ensures Right(|t|, m, Rank(|t|)) ==> IsPartial(JoinBinomial(t, root, url), root)
    ensures !Right(|t|, m, Rank(|t|)) ==> Fat(TreeOf(JoinBinomial(t, root, url), root))
    ensures Numbered(TreeOf(JoinBinomial(t, root, url), root), root, m, "")
  {
    hide Place, Partial, Rank, JoinBinomial, ShapeAt, Fits, Right, Numbered, IsTree;
    var o, n := TreeOf(t, root), |t|;
    JoinBinomialTree(t, root, url);
    FitsInTable(t, root);
    RootOrder(o, n);
    var p := Place(o, o.at[root].refcount, root);
    NumberedStays(o, p, url, root, m, "");
    if Right(n, m, Rank(n)) {
      PlaceRight(o, root, Rank(n), n, m, url);
    } else {
      var q, i := PlaceWrong(o, root, Rank(n), n, m);
      WrongIsFat(o, q, i, url);
    }
  }

  lemma LastJoin(root: string, urls: seq<string>)
    requires FreshUrls(root, urls) && urls != []
    ensures var front, last := urls[..|urls| - 1], urls[|urls| - 1];
            && FreshUrls(root, front) && |JoinsBinomial(root, front)| == |urls|
            && !Known(JoinsBinomial(root, front), last)
            && JoinsBinomial(root, urls) == JoinBinomial(JoinsBinomial(root, front), root, last)
            && Spanning(JoinsBinomial(root, urls), root)
  {
    hide Spanning, JoinBinomial;
    var front, last := urls[..|urls| - 1], urls[|urls| - 1];
    assert urls == front + [last];
    assert last !in front;
  }

  lemma RightMore(urls: seq<string>)
    requires urls != []
    ensures var front := urls[..|urls| - 1];
            RightJoins(urls) <==>
            RightJoins(front) && forall m :: 0 <= m < |front| && front[m] == "" ==> RightAt(|urls|, m)
  {
    hide RightAt;
    var front := urls[..|urls| - 1];
    if RightJoins(front) && forall m :: 0 <= m < |front| && front[m] == "" ==> RightAt(|urls|, m) {
      forall m, n | 0 <= m < |urls| && urls[m] == "" && m + 1 < n <= |urls| ensures RightAt(n, m) {
        assert front[m] == "";
      }
    }
  }

  lemma RootKnown(o: Tree)
    ensures o.root in o.at
  {
  }

  lemma FatGoesOn(t: Table, root: string, url: string)
    requires Spanning(t, root) && !Known(t, url) && Fat(TreeOf(t, root))
    ensures Spanning(JoinBinomial(t, root, url), root) && Fat(TreeOf(JoinBinomial(t, root, url), root))
  {
    hide Place, JoinBinomial, IsTree, Fat;
    JoinBinomialTree(t, root, url);
    var o := TreeOf(t, root);
    RootKnown(o);
    FatStays(o, Place(o, o.at[root].refcount, root), url);
  }

  /** After every sequence of joins the tree is the partial binomial tree with the unnamed node in its place, or
      has gone wrong for good. */
  lemma {:induction false} ShapeOrFat(root: string, urls: seq<string>)
    requires FreshUrls(root, urls) && |urls| < U32_MODULUS
    ensures RightJoins(urls) ==>
              IsPartial(JoinsBinomial(root, urls), root) && UnnamedAt(TreeOf(JoinsBinomial(root, urls), root), urls)
    ensures !RightJoins(urls) ==> Fat(TreeOf(JoinsBinomial(root, urls), root))
  {
    hide JoinsBinomial, JoinBinomial, Right, Rank, Numbered, Fat, IsTree, Partial, ShapeAt;
    if urls == [] {
      LoneShape(root);
      RootKnown(TreeOf(JoinsBinomial(root, urls), root));
    } else {
      var front, last := urls[..|urls| - 1], urls[|urls| - 1];
      LastJoin(root, urls);
      ShapeOrFat(root, front);
      RightMore(urls);
      var t := JoinsBinomial(root, front);
      if !RightJoins(front) {
        FatGoesOn(t, root, last);
      } else {
        JoinRight(root, urls);
      }
    }
  }

  lemma OnlyUnnamed(urls: seq<string>, m: nat)
    requires NoDup(urls) && m < |urls| && urls[m] == ""
    ensures forall k :: 0 <= k < |urls| && urls[k] == "" ==> k == m
  {
  }

  lemma JoinRight(root: string, urls: seq<string>)
    requires FreshUrls(root, urls) && |urls| < U32_MODULUS && urls != [] && FreshUrls(root, urls[..|urls| - 1])
    requires RightJoins(urls[..|urls| - 1]) && IsPartial(JoinsBinomial(root, urls[..|urls| - 1]), root)
    requires UnnamedAt(TreeOf(JoinsBinomial(root, urls[..|urls| - 1]), root), urls[..|urls| - 1])
    ensures RightJoins(urls) ==>
              IsPartial(JoinsBinomial(root, urls), root) && UnnamedAt(TreeOf(JoinsBinomial(root, urls), root), urls)
    ensures !RightJoins(urls) ==> Fat(TreeOf(JoinsBinomial(root, urls), root))
  {
    hide JoinsBinomial, JoinBinomial, Right, Rank, Numbered, Fat, IsTree, IsPartial, RightJoins, Known, NoDup;
    var front, last := urls[..|urls| - 1], urls[|urls| - 1];
    LastJoin(root, urls);
    RightMore(urls);
    var t := JoinsBinomial(root, front);
    RootKnown(TreeOf(JoinsBinomial(root, urls), root));
    if "" in front {
      var m :| 0 <= m < |front| && front[m] == "";
      assert urls[m] == "";
      OnlyUnnamed(urls, m);
      OnlyUnnamed(front, m);
      JoinAfterUnnamed(t, root, m + 1, last);
    } else {
      NameAbsent(root, front);
      JoinGrows(t, root, last);
    }
  }

  lemma NameAbsent(root: string, urls: seq<string>)
    requires FreshUrls(root, urls) && "" !in urls
    ensures root == "" || !Known(JoinsBinomial(root, urls), "")
  {
    hide JoinsBinomial;
  }

  // ----- the number of joins that goes well -----

  /** The number of the first join that goes wrong below a node searched with order u, if any does while its subtree
      is not full; m is the unnamed node's number there. */
  function LimitBelow(m: nat, u: nat): Option<nat>
    requires m >= 1
    decreases m
  {
    var i := Rank(m + 1) - 1;
    if m == Pow2(i) then if u == i + 1 then None else Some(2 * m)
    else Shifted(m, i)
  }

  function Shifted(m: nat, i: nat): Option<nat>
    requires m >= 1 && Pow2(i) < m
    decreases m, 0
  {
    match LimitBelow(m - Pow2(i), i)
    case None => None
    case Some(l) => Some(Pow2(i) + l)
  }

  /** The same from the root, which is searched with as many orders as it has children */
  function Limit(m: nat): Option<nat>
    requires m >= 1
  {
    var i := Rank(m + 1) - 1;
    if m == Pow2(i) then Some(3 * m) else Shifted(m, i)
  }

  lemma {:induction false} LimitBound(m: nat, u: nat)
    requires 1 <= m < Pow2(u)
    ensures LimitBelow(m, u).Some? ==> m < LimitBelow(m, u).value < Pow2(u)
    decreases m
  {
    hide Pow2, Rank;
    var i := TopOf(m);
    PowDoubles(i);
    if u <= i { Pow2Monotone(u, i); } else if u > i + 1 { Pow2Increases(i + 1, u); }
    if m > Pow2(i) { LimitBound(m - Pow2(i), i); }
  }

  function TopOf(m: nat): (i: nat)
    requires m >= 1
    ensures Pow2(i) <= m < Pow2(i + 1) && Rank(m + 1) == i + 1
  {
    Rank(m + 1) - 1
  }

  /** The unnamed node is a child of the node the search starts at. */
  lemma RightFirst(n: nat, i: nat, order: nat)
    requires Pow2(i) < n <= 3 * Pow2(i)
    ensures n < Pow2(i + 1) ==> Right(n, Pow2(i), order)
    ensures n == Pow2(i + 1) ==> (Right(n, Pow2(i), order) <==> order == i + 1)
    ensures Pow2(i + 1) < n < 3 * Pow2(i) ==> Right(n, Pow2(i), order)
    ensures n == 3 * Pow2(i) ==> !Right(n, Pow2(i), order)
  {
    hide Pow2, Rank;
    PowDoubles(i);
    PowDoubles(i + 1);
    TopBit(Pow2(i), i);
    if n <= Pow2(i + 1) { RankIs(n, i); } else { RankIs(n, i + 1); }
  }

  /** It is further down, below child i. */
  lemma RightDeeper(n: nat, m: nat, i: nat, order: nat)
    requires Pow2(i) < m < n && m < Pow2(i + 1)
    ensures n < Pow2(i + 1) ==> (Right(n, m, order) <==> Right(n - Pow2(i), m - Pow2(i), i))
    ensures n >= Pow2(i + 1) ==> Right(n, m, order)
  {
    hide Pow2, Rank;
    PowDoubles(i);
    TopBit(m, i);
    if n <= Pow2(i + 1) {
      RankIs(n, i);
    } else if Rank(n) <= i + 1 {
      Pow2Monotone(Rank(n), i + 1);
    }
  }

  /** Below a node: right up to the limit, wrong at it */
  lemma {:induction false} RightBelow(n: nat, m: nat, u: nat)
    requires 1 <= m < n < Pow2(u)
    ensures LimitBelow(m, u).None? ==> Right(n, m, u)
    ensures LimitBelow(m, u).Some? && n < LimitBelow(m, u).value ==> Right(n, m, u)
    ensures LimitBelow(m, u).Some? && n == LimitBelow(m, u).value ==> !Right(n, m, u)
    decreases m
  {
    hide Pow2, Rank, Right;
    var i := TopOf(m);
    PowDoubles(i);
    if u <= i + 1 { Pow2Monotone(u, i + 1); }
    if m == Pow2(i) {
      if n <= 3 * m { RightFirst(n, i, u); }
    } else {
      assert LimitBelow(m, u) == Shifted(m, i);
      LimitBound(m - Pow2(i), i);
      RightDeeper(n, m, i, u);
      if n < Pow2(i + 1) { RightBelow(n - Pow2(i), m - Pow2(i), i); }
    }
  }

  lemma RankIs(n: nat, i: nat)
    requires Pow2(i) < n <= Pow2(i + 1)
    ensures Rank(n) == i + 1
  {
    RankUnique(n, i + 1);
  }

  /** From the root: right up to the limit, wrong at it */
  lemma RightRoot(n: nat, m: nat)
    requires 1 <= m < n
    ensures Limit(m).None? ==> Right(n, m, Rank(n))
    ensures Limit(m).Some? ==> m < Limit(m).value
    ensures Limit(m).Some? && n < Limit(m).value ==> Right(n, m, Rank(n))
    ensures Limit(m).Some? && n == Limit(m).value ==> !Right(n, m, Rank(n))
  {
    hide Pow2, Rank, Right;
    var i := TopOf(m);
    PowDoubles(i);
    if m == Pow2(i) {
      if n <= 3 * m {
        RightFirst(n, i, Rank(n));
        if n == Pow2(i + 1) { RankIs(n, i); }
      }
    } else {
      LimitBound(m - Pow2(i), i);
      RightDeeper(n, m, i, Rank(n));
      if n < Pow2(i + 1) { RightBelow(n - Pow2(i), m - Pow2(i), i); }
    }
  }

  /** The unnamed node, the m-th of the joining ones, does no harm among the given number of joins. */
  predicate Safe(m: nat, joins: nat) {
    Limit(m + 1).None? || joins < Limit(m + 1).value
  }

  ghost predicate Harmless(urls: seq<string>) {
    forall m :: 0 <= m < |urls| && urls[m] == "" ==> Safe(m, |urls|)
  }

  lemma RightJoinsIff(urls: seq<string>)
    ensures RightJoins(urls) <==> Harmless(urls)
  {
    hide Right, Rank, Limit;
    if RightJoins(urls) {
      forall m | 0 <= m < |urls| && urls[m] == "" ensures Safe(m, |urls|) {
        if l :| Limit(m + 1) == Some(l) && l <= |urls| {
          RightRoot(m + 2, m + 1);
          assert RightAt(l, m);
          RightRoot(l, m + 1);
        }
      }
    }
    if Harmless(urls) {
      forall m, n | 0 <= m < |urls| && urls[m] == "" && m + 1 < n <= |urls| ensures RightAt(n, m) {
        assert Safe(m, |urls|);
        RightRoot(n, m + 1);
      }
    }
  }

  /** n - 1 fresh joins build exactly the partial binomial tree of n nodes, in child order, if and only if no node
      without a name joined or the joins stay below its limit. */
  lemma BinomialShapeIff(root: string, urls: seq<string>)
    requires FreshUrls(root, urls) && |urls| < U32_MODULUS
    ensures IsPartial(JoinsBinomial(root, urls), root) <==> Harmless(urls)
  {
    hide JoinsBinomial, Harmless, RightJoins, Fat, IsTree, Partial, ShapeAt;
    ShapeOrFat(root, urls);
    RightJoinsIff(urls);
    if !RightJoins(urls) {
      FatIsNotPartial(TreeOf(JoinsBinomial(root, urls), root), |urls| + 1);
    }
  }

  /** With 2^j nodes it is the whole binomial tree B_j under the same condition. */
  lemma BinomialAtPowerIff(root: string, urls: seq<string>, j: nat)
    requires FreshUrls(root, urls) && |urls| < U32_MODULUS && |urls| + 1 == Pow2(j)
    ensures root in TreeOf(JoinsBinomial(root, urls), root).at
    ensures ShapeAt(TreeOf(JoinsBinomial(root, urls), root), root) == Complete(j) <==> Harmless(urls)
  {
    hide JoinsBinomial, Harmless, IsTree, Partial, ShapeAt;
    RootKnown(TreeOf(JoinsBinomial(root, urls), root));
    BinomialShapeIff(root, urls);
    PartialAtPower(j);
  }

  /** Nodes with names always build it. */
  lemma NamedAreHarmless(urls: seq<string>)
    ensures "" !in urls ==> Harmless(urls)
  {
  }

  /** An unnamed node that joins first spoils the tree with the third join; one that joins third never does. */
  lemma UnnamedExamples(n: nat)
    ensures !Harmless(["", "a", "b"]) && Harmless(["", "a"])
    ensures Safe(2, n)
  {
    assert Rank(2) == 1 && Rank(4) == 2 && Pow2(1) == 2 && Pow2(0) == 1;
    assert Limit(1) == Some(3);
    assert LimitBelow(1, 1) == None && Limit(3) == None;
    assert ["", "a", "b"][0] == "";
  }
}
