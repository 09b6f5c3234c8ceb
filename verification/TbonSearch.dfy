/** Which child the binomial search turns to, in any tree: also one that leaves and repairs have put out of shape.

    The reference speaks of positions in the list of children.  Iteration i sets aside the first child, among those
    not set aside yet, whose subtree has 2^i nodes; if there is none, the search turns to the first whose subtree is
    smaller than that.
 */
module TbonSearch {
  import opened Basics
  import opened TbonTable
  import opened TbonBinomial

  // ----- the reference -----

  /** Position k is the first one, apart from those in `aside`, with a subtree of the given size. */
  ghost predicate FirstFit(subs: Subtrees, aside: set<nat>, size: nat, k: nat) {
    && k < |subs| && k !in aside && subs[k].1 == size
    && forall l :: 0 <= l < k && l !in aside ==> subs[l].1 != size
  }

  /** Position k is the first one, apart from those in `aside`, with a subtree below the given size. */
  ghost predicate FirstBelow(subs: Subtrees, aside: set<nat>, size: nat, k: nat) {
    && k < |subs| && k !in aside && subs[k].1 < size
    && forall l :: 0 <= l < k && l !in aside ==> subs[l].1 >= size
  }

  /** Iteration i sets position k aside: a first fit counts if its URL is not empty. */
  ghost predicate Sets(subs: Subtrees, i: nat, k: nat)
    decreases i, 1
  {
    FirstFit(subs, Aside(subs, i), Pow2(i), k) && subs[k].0 != ""
  }

  /** The positions set aside before iteration i */
  ghost function Aside(subs: Subtrees, i: nat): set<nat>
    decreases i, 0
  {
    if i == 0 then {} else AsideAfter(subs, i - 1)
  }

  /** And after it */
  ghost function AsideAfter(subs: Subtrees, i: nat): set<nat>
    decreases i, 2
  {
    if exists k: nat :: Sets(subs, i, k) then
      var k: nat :| Sets(subs, i, k);
      Aside(subs, i) + {k}
    else Aside(subs, i)
  }

  /** Iteration i turns to position k. */
  ghost predicate Turns(subs: Subtrees, i: nat, k: nat) {
    (forall l: nat :: !Sets(subs, i, l)) && FirstBelow(subs, Aside(subs, i), Pow2(i), k)
  }

  ghost predicate NoTurn(subs: Subtrees, i: nat) {
    forall k: nat :: !Turns(subs, i, k)
  }

  ghost predicate NoTurnBefore(subs: Subtrees, i: nat) {
    forall j: nat :: j < i ==> NoTurn(subs, j)
  }

  // ----- the lists of the loop by position -----

  /** The subtrees from a position on, without those set aside */
  ghost function Keep(subs: Subtrees, aside: set<nat>, from: nat): Subtrees
    requires from <= |subs|
    decreases |subs| - from
  {
    if from == |subs| then []
    else if from in aside then Keep(subs, aside, from + 1)
    else [subs[from]] + Keep(subs, aside, from + 1)
  }

  lemma {:induction false} KeepAll(subs: Subtrees, from: nat)
    requires from <= |subs|
    ensures Keep(subs, {}, from) == subs[from..]
    decreases |subs| - from
  {
    if from < |subs| { KeepAll(subs, from + 1); }
  }

  /** The searches and the removal on a list with one more subtree in front */
  lemma OneMore(x: (string, nat), rest: Subtrees, size: nat, url: string)
    ensures FirstOfSize([x] + rest, size) == if x.1 == size then x.0 else FirstOfSize(rest, size)
    ensures FirstSmaller([x] + rest, size) == if x.1 < size then Some(x.0) else FirstSmaller(rest, size)
    ensures Drop([x] + rest, url) == if x.0 == url then Drop(rest, url) else [x] + Drop(rest, url)
  {
    assert ([x] + rest)[1..] == rest;
  }

  /** A search by size finds the first position that fits. */
  lemma {:induction false} FirstOfSizeKept(subs: Subtrees, aside: set<nat>, size: nat, from: nat, k: nat)
    requires from <= k && FirstFit(subs, aside, size, k)
    ensures FirstOfSize(Keep(subs, aside, from), size) == subs[k].0
    decreases |subs| - from
  {
    hide FirstOfSize, FirstSmaller, Drop;
    OneMore(subs[from], Keep(subs, aside, from + 1), size, "");
    if from < k { FirstOfSizeKept(subs, aside, size, from + 1, k); }
  }

  lemma {:induction false} NoneOfSizeKept(subs: Subtrees, aside: set<nat>, size: nat, from: nat)
    requires from <= |subs| && forall l :: from <= l < |subs| && l !in aside ==> subs[l].1 != size
    ensures FirstOfSize(Keep(subs, aside, from), size) == ""
    decreases |subs| - from
  {
    if from < |subs| {
      OneMore(subs[from], Keep(subs, aside, from + 1), size, "");
      NoneOfSizeKept(subs, aside, size, from + 1);
    }
  }

  lemma {:induction false} FirstSmallerKept(subs: Subtrees, aside: set<nat>, size: nat, from: nat, k: nat)
    requires from <= k && FirstBelow(subs, aside, size, k)
    ensures FirstSmaller(Keep(subs, aside, from), size) == Some(subs[k].0)
    decreases |subs| - from
  {
    hide FirstOfSize, FirstSmaller, Drop;
    OneMore(subs[from], Keep(subs, aside, from + 1), size, "");
    if from < k { FirstSmallerKept(subs, aside, size, from + 1, k); }
  }

  lemma {:induction false} NoneSmallerKept(subs: Subtrees, aside: set<nat>, size: nat, from: nat)
    requires from <= |subs| && forall l :: from <= l < |subs| && l !in aside ==> subs[l].1 >= size
    ensures FirstSmaller(Keep(subs, aside, from), size) == None
    decreases |subs| - from
  {
    if from < |subs| {
      OneMore(subs[from], Keep(subs, aside, from + 1), size, "");
      NoneSmallerKept(subs, aside, size, from + 1);
    }
  }

  lemma KeepNext(subs: Subtrees, aside: set<nat>, from: nat)
    requires from < |subs|
    ensures Keep(subs, aside, from) ==
            if from in aside then Keep(subs, aside, from + 1) else [subs[from]] + Keep(subs, aside, from + 1)
  {
  }

  lemma KeepNone(subs: Subtrees, aside: set<nat>, url: string)
    ensures Keep(subs, aside, |subs|) == [] && Drop([], url) == []
  {
  }

  lemma SameKey(subs: Subtrees, i: nat, k: nat)
    requires DistinctKeys(subs) && i < |subs| && k < |subs|
    ensures subs[i].0 == subs[k].0 <==> i == k
  {
  }

  /** Dropping a URL takes out its position and keeps the others in order. */
  lemma {:induction false} DropKept(subs: Subtrees, aside: set<nat>, k: nat, from: nat)
    requires DistinctKeys(subs) && k < |subs| && from <= |subs|
    ensures Drop(Keep(subs, aside, from), subs[k].0) == Keep(subs, aside + {k}, from)
    decreases |subs| - from
  {
    hide *;
    if from == |subs| {
      KeepNone(subs, aside, subs[k].0);
      KeepNone(subs, aside + {k}, subs[k].0);
    } else {
      SameKey(subs, from, k);
      DropKept(subs, aside, k, from + 1);
      OneMore(subs[from], Keep(subs, aside, from + 1), 0, subs[k].0);
      KeepNext(subs, aside, from);
      KeepNext(subs, aside + {k}, from);
    }
  }

  lemma LeastFit(subs: Subtrees, aside: set<nat>, size: nat) returns (k: nat)
    ensures if k < |subs| then FirstFit(subs, aside, size, k)
            else k == |subs| && forall l :: 0 <= l < |subs| && l !in aside ==> subs[l].1 != size
  {
    k := 0;
    while k < |subs| && (k in aside || subs[k].1 != size)
      invariant k <= |subs| && forall l :: 0 <= l < k && l !in aside ==> subs[l].1 != size
    {
      k := k + 1;
    }
  }

  lemma LeastBelow(subs: Subtrees, aside: set<nat>, size: nat) returns (k: nat)
    ensures if k < |subs| then FirstBelow(subs, aside, size, k)
            else k == |subs| && forall l :: 0 <= l < |subs| && l !in aside ==> subs[l].1 >= size
  {
    k := 0;
    while k < |subs| && (k in aside || subs[k].1 >= size)
      invariant k <= |subs| && forall l :: 0 <= l < k && l !in aside ==> subs[l].1 >= size
    {
      k := k + 1;
    }
  }

  // ----- one iteration -----

  /** What is left at the start of iteration i */
  ghost function LeftAt(subs: Subtrees, i: nat): Subtrees {
    Keep(subs, Aside(subs, i), 0)
  }

  lemma ScanUnfold(left: Subtrees, i: nat, order: nat)
    requires i < order
    ensures var hit := FirstOfSize(left, Pow2(i));
            Scan(left, i, order, "") ==
            if hit != "" then Scan(Drop(left, hit), i + 1, order, "")
            else if FirstSmaller(left, Pow2(i)).Some? then Descend(i, FirstSmaller(left, Pow2(i)).value)
            else Scan(left, i + 1, order, "")
  {
    hide Pow2, Drop, FirstOfSize, FirstSmaller;
    ScanRemaining(left, i + 1, order, FirstOfSize(left, Pow2(i)));
  }

  lemma SetsOne(subs: Subtrees, i: nat, k: nat)
    requires Sets(subs, i, k)
    ensures Aside(subs, i + 1) == Aside(subs, i) + {k} && forall l: nat :: Sets(subs, i, l) ==> l == k
  {
    hide Pow2;
  }

  /** An iteration that sets a position aside */
  lemma SetAside(subs: Subtrees, i: nat, order: nat, k: nat)
    requires i < order && DistinctKeys(subs) && Sets(subs, i, k)
    ensures Scan(LeftAt(subs, i), i, order, "") == Scan(LeftAt(subs, i + 1), i + 1, order, "") && NoTurn(subs, i)
  {
    hide Scan, FirstOfSize, FirstSmaller, Drop, Keep, Aside, Pow2, DistinctKeys;
    FirstOfSizeKept(subs, Aside(subs, i), Pow2(i), 0, k);
    ScanUnfold(LeftAt(subs, i), i, order);
    DropKept(subs, Aside(subs, i), k, 0);
    SetsOne(subs, i, k);
  }

  lemma NothingFits(subs: Subtrees, i: nat)
    requires forall l: nat :: !Sets(subs, i, l)
    ensures FirstOfSize(LeftAt(subs, i), Pow2(i)) == "" && Aside(subs, i + 1) == Aside(subs, i)
  {
    hide FirstOfSize, Keep, Pow2;
    var aside, size := Aside(subs, i), Pow2(i);
    var k := LeastFit(subs, aside, size);
    if k < |subs| {
      assert !Sets(subs, i, k);
      FirstOfSizeKept(subs, aside, size, 0, k);
    } else {
      NoneOfSizeKept(subs, aside, size, 0);
    }
  }

  /** One that turns */
  lemma TurnsTo(subs: Subtrees, i: nat, order: nat, k: nat)
    requires i < order && Turns(subs, i, k)
    ensures Scan(LeftAt(subs, i), i, order, "") == Descend(i, subs[k].0)
  {
    hide Scan, FirstOfSize, FirstSmaller, Drop, Keep, Aside, Pow2, Sets;
    NothingFits(subs, i);
    FirstSmallerKept(subs, Aside(subs, i), Pow2(i), 0, k);
    ScanUnfold(LeftAt(subs, i), i, order);
  }

  lemma GoesOn(subs: Subtrees, i: nat, order: nat)
    requires i < order && DistinctKeys(subs) && NoTurn(subs, i)
    ensures Scan(LeftAt(subs, i), i, order, "") == Scan(LeftAt(subs, i + 1), i + 1, order, "")
  {
    hide Scan, FirstOfSize, FirstSmaller, Drop, Keep, Aside, Pow2, DistinctKeys, Sets, FirstBelow;
    if k: nat :| Sets(subs, i, k) {
      SetAside(subs, i, order, k);
    } else {
      NothingFits(subs, i);
      var b := LeastBelow(subs, Aside(subs, i), Pow2(i));
      assert b == |subs| by {
        assert !Turns(subs, i, b);
      }
      NoneSmallerKept(subs, Aside(subs, i), Pow2(i), 0);
      ScanUnfold(LeftAt(subs, i), i, order);
    }
  }

  // ----- the whole loop -----

  lemma {:induction false} ScanUpTo(subs: Subtrees, i: nat, order: nat)
    requires DistinctKeys(subs) && i <= order && NoTurnBefore(subs, i)
    ensures Scan(subs, 0, order, "") == Scan(LeftAt(subs, i), i, order, "")
  {
    hide Scan, NoTurn, DistinctKeys;
    if i == 0 {
      KeepAll(subs, 0);
    } else {
      hide LeftAt;
      ScanUpTo(subs, i - 1, order);
      assert NoTurn(subs, i - 1);
      GoesOn(subs, i - 1, order);
    }
  }

  /** The loop turns to position k in iteration i if that is the first iteration that turns. */
  lemma ScanTurns(subs: Subtrees, order: nat, i: nat, k: nat)
    requires DistinctKeys(subs) && i < order && Turns(subs, i, k) && NoTurnBefore(subs, i)
    ensures k < |subs| && Scan(subs, 0, order, "") == Descend(i, subs[k].0)
  {
    hide Scan, LeftAt, Sets, Aside, NoTurnBefore, DistinctKeys, Pow2;
    ScanUpTo(subs, i, order);
    TurnsTo(subs, i, order, k);
  }

  lemma ScanStaysIfNoTurn(subs: Subtrees, order: nat)
    requires DistinctKeys(subs) && NoTurnBefore(subs, order)
    ensures Scan(subs, 0, order, "") == Stay
  {
    hide LeftAt, NoTurnBefore, DistinctKeys;
    ScanUpTo(subs, order, order);
  }

  // ----- in a tree -----

  /** The children of a node, with the sizes of their subtrees as the search sees them */
  ghost function ChildSizes(o: Tree, u: string): Subtrees
    requires u in o.at
  {
    SubtreesOf(o, u, |o.at[u].child|)
  }

  /** A size is the number of the child's descendants, truncated to 32 bits. */
  lemma ChildSize(o: Tree, u: string, k: nat)
    requires u in o.at && k < |o.at[u].child|
    ensures |ChildSizes(o, u)| == |o.at[u].child| && o.at[u].child[k] in o.at
    ensures ChildSizes(o, u)[k] == (o.at[u].child[k], |Descendants(o, o.at[u].child[k])| % U32_MODULUS)
  {
    hide IsTree, Size, Descendants;
    assert ChildSizes(o, u)[k].0 == o.at[u].child[k];
    SizeCountsDescendants(o, o.at[u].child[k]);
  }

  /** In every tree: when no iteration turns, the search ends where it is. */
  lemma PlaceStaysIfNoTurn(o: Tree, order: nat, u: string)
    requires u in o.at && NoTurnBefore(ChildSizes(o, u), order)
    ensures Place(o, order, u) == u
  {
    hide Scan, NoTurnBefore, IsTree, DistinctKeys, SubtreesOf;
    KeysDistinct(o, u);
    ScanStaysIfNoTurn(ChildSizes(o, u), order);
  }

  /** Otherwise it goes on at the child that the first iteration to turn turns to, with the number of that iteration. */
  lemma PlaceTurns(o: Tree, order: nat, u: string, i: nat, k: nat)
    requires u in o.at && i < order && Turns(ChildSizes(o, u), i, k) && NoTurnBefore(ChildSizes(o, u), i)
    ensures k < |o.at[u].child| && o.at[u].child[k] in o.at
    ensures Place(o, order, u) == Place(o, i, o.at[u].child[k])
  {
    hide Scan, NoTurnBefore, Turns, IsTree, DistinctKeys;
    KeysDistinct(o, u);
    ScanTurns(ChildSizes(o, u), order, i, k);
  }

  /** Every search is one of the two. */
  lemma {:induction false} TurnsOrNot(subs: Subtrees, order: nat) returns (i: nat, k: nat)
    ensures i <= order && NoTurnBefore(subs, i) && (i < order ==> Turns(subs, i, k))
  {
    hide Turns;
    i, k := 0, 0;
    while i < order && NoTurn(subs, i)
      invariant i <= order && NoTurnBefore(subs, i)
    {
      i := i + 1;
    }
    if i < order { k :| Turns(subs, i, k); }
  }

  /** A node left with leaves only, as after leaves of deeper nodes: a newcomer goes below the second of them. */
  lemma SecondLeafTakesIt(o: Tree, order: nat, u: string)
    requires u in o.at && order >= 2 && |o.at[u].child| >= 2 && o.at[u].child[0] != ""
    requires forall c :: c in o.at[u].child && c in o.at ==> o.at[c].child == []
    ensures Place(o, order, u) == o.at[u].child[1]
  {
    hide Scan, IsTree, Place, Turns, NoTurn, Aside;
    var subs := ChildSizes(o, u);
    LeafSizes(o, u);
    SecondTurns(subs);
    PlaceTurns(o, order, u, 1, 1);
    var c := o.at[u].child[1];
    assert c in o.at[u].child;
    NoKidsNoTurn([]);
    assert ChildSizes(o, c) == [];
    PlaceStaysIfNoTurn(o, 1, c);
  }

  lemma LeafSizes(o: Tree, u: string)
    requires u in o.at && forall c :: c in o.at[u].child && c in o.at ==> o.at[c].child == []
    ensures var subs := ChildSizes(o, u);
            |subs| == |o.at[u].child| && forall k :: 0 <= k < |subs| ==> subs[k] == (o.at[u].child[k], 1)
  {
    hide IsTree;
    var subs := ChildSizes(o, u);
    forall k | 0 <= k < |subs| ensures subs[k] == (o.at[u].child[k], 1) {
      LeafSize(o, u, k);
    }
  }

  lemma LeafSize(o: Tree, u: string, k: nat)
    requires u in o.at && forall c :: c in o.at[u].child && c in o.at ==> o.at[c].child == []
    requires k < |o.at[u].child|
    ensures ChildSizes(o, u)[k] == (o.at[u].child[k], 1)
  {
    hide IsTree;
    var c := o.at[u].child[k];
    assert c in o.at[u].child && ChildSizes(o, u)[k].0 == c;
    assert o.at[c].child == [];
    assert Size(o, c) == 1;
  }

  lemma SecondTurns(subs: Subtrees)
    requires |subs| >= 2 && subs[0].0 != "" && forall k :: 0 <= k < |subs| ==> subs[k].1 == 1
    ensures Turns(subs, 1, 1) && NoTurnBefore(subs, 1)
  {
    assert Pow2(0) == 1 && Pow2(1) == 2;
    assert Sets(subs, 0, 0);
    SetsOne(subs, 0, 0);
    assert Aside(subs, 1) == {0};
  }

  lemma NoKidsNoTurn(subs: Subtrees)
    requires subs == []
    ensures NoTurnBefore(subs, 1)
  {
  }
}
