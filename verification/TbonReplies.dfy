/** What the server answers, and that the answer agrees with what it did to the table.

    The newcomer of a `/pivot` registers with the node it is told.  The parent of a node that was cut out connects to
    the node it is told, by the reply to its `/remove` or by the server itself after a `/leave`.
 */
module TbonReplies {
  import opened Basics
  import opened TbonTable
  import opened TbonRepair
  import opened TbonRuns

  datatype Response = Success(operation: string) | BadReq(reason: string)

  // ----- joins -----

  /** A join attaches the newcomer and tells it which node to register with. */
  ghost function PivotResult(t: Table, root: string, branches: nat, from: string): (Table, Response)
    requires Spanning(t, root)
  {
    (Step(t, root, branches, Pivot(from)),
     if ContainsHttp(from) then BadReq("From should not be an URL (with http://) but host:port")
     else Success(t[Target(t, root, branches)].url))
  }

  /** The node named in the reply is the newcomer's parent in the new tree: its list has grown by the newcomer. */
  lemma PivotNamesParent(t: Table, root: string, branches: nat, from: string)
    requires Spanning(t, root) && !ContainsHttp(from) && !Known(t, from)
    ensures var (s, resp) := PivotResult(t, root, branches, from);
            && Spanning(s, root) && resp.Success? && resp.operation in NodesOf(t) && from in NodesOf(s)
            && resp.operation in NodesOf(s) && Parent(TreeOf(s, root), from) == resp.operation
            && NodesOf(s)[resp.operation].child == NodesOf(t)[resp.operation].child + [from]
            && NodesOf(s)[from].depth == NodesOf(t)[resp.operation].depth + 1 && NodesOf(s)[from].child == []
  {
    hide IsTree, Target;
    var p := Target(t, root, branches);
    var parent := t[p].url;
    AttachKeepsTree(t, root, p, from);
    AttachNodes(t, p, from);
    var s := Attach(t, p, from);
    assert NodesOf(s)[parent].child[|NodesOf(t)[parent].child|] == from;
    OnlyParent(TreeOf(s, root), parent, from);
  }

  lemma OnlyParent(o: Tree, u: string, c: string)
    requires u in o.at && c in o.at[u].child
    ensures HasParent(o, c) && Parent(o, c) == u
  {
  }

  // ----- repairs -----

  /** A repair answers with the node that took the target's place, if one was needed, and with the sampling period
      that node was asked for. */
  function RepairReply(t: Table, from: string, target: string, period: string): Response {
    if !Known(t, from) then BadReq("No such from client " + from)
    else if Replacement(t, from, target) == "" then Success("Unresponsive node removed!")
    else Success(Replacement(t, from, target) + "&" + period)
  }

  /** In every tree, for any known `from`: a target with children is replaced by the last of the deepest nodes.  A node
      that reports itself has its own counter decremented first: it counts as childless if it has one child, and as a
      node with children if it has none. */
  lemma ReplacementIs(t: Table, root: string, from: string, target: string)
    requires Spanning(t, root)
    ensures t != []
    ensures Replacement(t, from, target) ==
            if from !in NodesOf(t) || target !in NodesOf(t)
               || |NodesOf(t)[target].child| == (if from == target then 1 else 0)
            then "" else t[LastDeepest(t)].url
  {
    hide IsTree, LastDeepest, Find, HeldAtMostOnce, Without;
    SomeNode(t, root);
    FindIsLookup(t, from);
    FindIsLookup(t, target);
    var f, p := Find(t, from), Find(t, target);
    if f < |t| && p < |t| {
      CutFacts(t, root, f, p);
    } else if f < |t| {
      FindUnchanged(t, t[f := t[f].RemoveFrom(target)], target);
    }
  }

  lemma CountsChildren(o: Tree, u: string)
    requires u in o.at
    ensures o.at[u].refcount == |o.at[u].child|
  {
    assert SoundRecord(o.at[u], u);
  }

  /** After a repair by the parent, its list is the old one without the target, in order, followed by the node named in
      the reply, which it did not have before; nothing is named exactly when the target had no children or the node
      has an empty URL. */
  lemma ReplacementJoinsParent(t: Table, root: string, from: string, target: string, k: nat)
    requires ParentAndChild(t, root, from, target)
    requires k < |NodesOf(t)[from].child| && NodesOf(t)[from].child[k] == target
    ensures target in NodesOf(t) && Spanning(Repair(t, from, target), root)
    ensures var before, s := NodesOf(t)[from].child, Repair(t, from, target);
            var r := Replacement(t, from, target);
            && from in NodesOf(s)
            && NodesOf(s)[from].child ==
               before[..k] + before[k + 1..] + (if NodesOf(t)[target].child == [] then [] else [t[LastDeepest(t)].url])
            && (NodesOf(t)[target].child != [] ==> r == t[LastDeepest(t)].url && r !in before && r in NodesOf(s))
            && (r == "" <==> NodesOf(t)[target].child == [] || t[LastDeepest(t)].url == "")
  {
    hide IsTree, Repair, Replacement, LastDeepest, Without, NoLarger;
    RepairedParent(t, root, from, target);
    RepairKeepsTree(t, root, from, target);
    ReplacementIs(t, root, from, target);
    KidsDistinct(TreeOf(t, root), from);
    WithoutOne(NodesOf(t)[from].child, k);
    if NodesOf(t)[target].child != [] { ReplacementSetup(t, root, from, target); }
  }

  lemma RepairedParent(t: Table, root: string, from: string, target: string)
    requires ParentAndChild(t, root, from, target)
    ensures target in NodesOf(t) && t != [] && UniqueUrls(Repair(t, from, target)) && from != target
    ensures from in NodesOf(Repair(t, from, target))
    ensures NodesOf(Repair(t, from, target))[from].child ==
            Without(NodesOf(t)[from].child, target)
            + (if NodesOf(t)[target].child == [] then [] else [t[LastDeepest(t)].url])
  {
    hide IsTree, Repair, LastDeepest, Without;
    RepairNodes(t, root, from, target);
    NotItself(TreeOf(t, root), from, target);
  }

  lemma NotItself(o: Tree, u: string, c: string)
    requires u in o.at && c in o.at[u].child
    ensures u != c
  {
  }

  lemma KidsDistinct(o: Tree, u: string)
    requires u in o.at
    ensures NoDup(o.at[u].child)
  {
    assert SoundRecord(o.at[u], u);
  }

  /** A repair takes the target's record out of the vector and leaves the others where they were. */
  lemma RepairKeepsOrder(t: Table, from: string, target: string, p: nat, i: nat)
    requires UniqueUrls(t) && Known(t, from) && p < |t| && t[p].url == target && i < |t| - 1
    ensures |Repair(t, from, target)| == |t| - 1
    ensures Repair(t, from, target)[i].url == t[if i < p then i else i + 1].url
  {
    hide Mend, Find;
    var f := Find(t, from);
    assert f < |t|;
    var mid := Mend(t, f, target);
    forall j | 0 <= j < |t| ensures mid[j].url == t[j].url {
      MendKeepsUrls(t, f, target, j);
    }
    ForgetOne(mid, p);
  }

  // ----- every repair, record by record -----

  ghost predicate HeldAtMostOnce(t: Table, url: string) {
    forall a, b :: 0 <= a < |t| && 0 <= b < |t| && url in t[a].child && url in t[b].child ==> a == b
  }

  /** A record once the replacement has been taken out of its old place */
  function Loose(x: ClientPivot, isTarget: bool, r: string): ClientPivot {
    if r in x.child && !isTarget then x.RemoveFrom(r) else x
  }

  /** The record at position i after a graft, whatever nodes f, p and r are */
  function GraftedRecordAt(t: Table, f: nat, p: nat, r: nat, i: nat): ClientPivot
    requires f < |t| && p < |t| && r < |t| && i < |t|
  {
    var url := t[r].url;
    var loose := Loose(t[i], i == p, url);
    var linked := if i == f then loose.MapTo(url) else loose;
    if i == r then Adopt(linked.(depth := t[f].depth + 1), Without(t[p].child, url)) else linked
  }

  lemma LooseAt(t: Table, p: nat, url: string, i: nat)
    requires p < |t| && i < |t| && HeldAtMostOnce(t, url)
    ensures Detach(t, p, url)[i] == Loose(t[i], i == p, url)
  {
    hide Without;
    var j := ParentPos(t, url);
    if url in t[i].child { assert j == i; }
  }

  lemma WithoutOwn(xs: seq<string>, x: string)
    ensures Without(xs + [x], x) == Without(xs, x)
  {
    if xs == [] {
      assert [] + [x] == [x];
    } else {
      hide Without;
      WithoutHead(xs, x);
      WithoutHead(xs + [x], x);
      assert (xs + [x])[1..] == xs[1..] + [x];
      WithoutOwn(xs[1..], x);
    }
  }

  lemma GraftAt(t: Table, f: nat, p: nat, r: nat, i: nat)
    requires f < |t| && p < |t| && r < |t| && i < |t| && HeldAtMostOnce(t, t[r].url) && i != p
    requires p == r ==> t[p].child == []
    ensures Graft(t, f, p, r)[i] == GraftedRecordAt(t, f, p, r, i)
  {
    hide Without, Adopt, HeldAtMostOnce, Detach, Loose;
    var url := t[r].url;
    var t2 := Detach(t, p, url);
    LooseAt(t, p, url, i);
    LooseAt(t, p, url, f);
    LooseAt(t, p, url, p);
    LooseTarget(t[p], url);
    LooseDepth(t[f], f == p, url);
    var t3 := t2[f := t2[f].MapTo(url)];
    var t4 := t3[r := t3[r].(depth := t3[f].depth + 1)];
    assert Without(t4[p].child, url) == Without(t[p].child, url) by { WithoutOwn(t[p].child, url); }
  }

  lemma LooseTarget(x: ClientPivot, r: string)
    ensures Loose(x, true, r) == x
  {
  }

  lemma LooseDepth(x: ClientPivot, isTarget: bool, r: string)
    ensures Loose(x, isTarget, r).depth == x.depth
  {
  }

  /** The record x after a repair: `from` gives up the target; if there is a replacement r, it is taken out of its old
      place, hung below `from`, and adopts the target's other children. */
  function RepairedOne(
    x: ClientPivot, from: ClientPivot, target: ClientPivot, replaced: bool, r: string): ClientPivot
  {
    var cut := if x.url == from.url then x.RemoveFrom(target.url) else x;
    if !replaced then cut
    else
      var loose := Loose(cut, false, r);
      var linked := if x.url == from.url then loose.MapTo(r) else loose;
      if x.url == r then Adopt(linked.(depth := from.depth + 1), Without(target.child, r)) else linked
  }

  /** A target is replaced if its counter, after the decrement, is not zero. */
  predicate IsReplaced(from: ClientPivot, target: ClientPivot) {
    |target.child| != if from.url == target.url then 1 else 0
  }

  /** Every repair, benign or not, of a known target by a known node: what each other record is afterwards. */
  lemma RepairRecords(t: Table, root: string, from: string, target: string, u: string)
    requires Spanning(t, root) && from in NodesOf(t) && target in NodesOf(t) && u in NodesOf(t) && u != target
    ensures t != [] && UniqueUrls(Repair(t, from, target)) && u in NodesOf(Repair(t, from, target))
    ensures var m := NodesOf(t);
            NodesOf(Repair(t, from, target))[u] ==
            RepairedOne(m[u], m[from], m[target], IsReplaced(m[from], m[target]), t[LastDeepest(t)].url)
  {
    hide IsTree, LastDeepest, Find, Mend, RepairedOne, IsReplaced;
    DeepestInTree(t, root);
    FindIsLookup(t, from);
    FindIsLookup(t, target);
    FindIsLookup(t, u);
    var f, i := Find(t, from), Find(t, u);
    var mid := Mend(t, f, target);
    forall j | 0 <= j < |t| ensures mid[j].url == t[j].url {
      MendKeepsUrls(t, f, target, j);
    }
    MendAt(t, root, f, Find(t, target), i);
    assert UniqueUrls(mid) && mid[i] in mid;
    assert mid[i] in Forget(mid, target);
  }

  lemma MendAt(t: Table, root: string, f: nat, p: nat, i: nat)
    requires Spanning(t, root) && f < |t| && p < |t| && i < |t| && i != p
    ensures t != []
    ensures Mend(t, f, t[p].url)[i] ==
            RepairedOne(t[i], t[f], t[p], IsReplaced(t[f], t[p]), t[LastDeepest(t)].url)
  {
    hide Spanning, Graft, Without, Adopt, Loose, HeldAtMostOnce, RepairedOne, GraftedRecordAt;
    SomeNode(t, root);
    CutFacts(t, root, f, p);
    var t1, r := t[f := t[f].RemoveFrom(t[p].url)], LastDeepest(t);
    OneUrlEach(t, root, f, i);
    OneUrlEach(t, root, r, i);
    GraftedIsRepaired(t, f, p, r, i);
    if t1[p].refcount != 0 { GraftAt(t1, f, p, r, i); }
  }

  lemma OneUrlEach(t: Table, root: string, i: nat, j: nat)
    requires Spanning(t, root) && i < |t| && j < |t|
    ensures t[i].url == t[j].url <==> i == j
  {
  }

  lemma GraftedIsRepaired(t: Table, f: nat, p: nat, r: nat, i: nat)
    requires f < |t| && p < |t| && r < |t| && i < |t| && i != p
    requires (t[f].url == t[i].url <==> f == i) && (t[r].url == t[i].url <==> r == i)
    ensures var t1 := t[f := t[f].RemoveFrom(t[p].url)];
            && (t1[p].child == t[p].child ==>
                  GraftedRecordAt(t1, f, p, r, i) == RepairedOne(t[i], t[f], t[p], true, t[r].url))
            && t1[i] == RepairedOne(t[i], t[f], t[p], false, t[r].url)
  {
    hide Loose, Without, Adopt;
  }

  /** After the decrement the records stand where they stood, and the target's children are those it had. */
  lemma CutFacts(t: Table, root: string, f: nat, p: nat)
    requires Spanning(t, root) && f < |t| && p < |t|
    ensures var t1 := t[f := t[f].RemoveFrom(t[p].url)];
            && Find(t1, t[p].url) == p && LastDeepest(t1) == LastDeepest(t)
            && (t1[p].refcount != 0 <==> IsReplaced(t[f], t[p])) && t1[p].child == t[p].child
            && HeldAtMostOnce(t1, t[LastDeepest(t)].url) && (p == LastDeepest(t) ==> t1[p].child == [])
  {
    hide IsTree, LastDeepest, Find;
    var target, o := t[p].url, TreeOf(t, root);
    var t1 := t[f := t[f].RemoveFrom(target)];
    FindIsLookup(t, target);
    FindUnchanged(t, t1, target);
    DeepestUnchanged(t, t1);
    CountsChildren(o, target);
    CutHeldAtMostOnce(t, root, f, target, t[LastDeepest(t)].url);
    DeepestChildless(t, root);
    NotOwnChild(t, root, p);
    assert t[f].url == target <==> f == p;
    if f == p { KeptWithout(t[p].child, target); }
  }

  lemma KeptWithout(xs: seq<string>, x: string)
    requires x !in xs
    ensures Without(xs, x) == xs
  {
  }

  lemma DeepestChildless(t: Table, root: string)
    requires Spanning(t, root)
    ensures t != [] && t[LastDeepest(t)].child == []
  {
    DeepestInTree(t, root);
    ParentNotDeepest(TreeOf(t, root), t[LastDeepest(t)].url);
  }

  lemma CutHeldAtMostOnce(t: Table, root: string, f: nat, target: string, url: string)
    requires Spanning(t, root) && f < |t|
    ensures HeldAtMostOnce(t[f := t[f].RemoveFrom(target)], url)
  {
    hide IsTree;
    var t1 := t[f := t[f].RemoveFrom(target)];
    forall a, b | 0 <= a < |t1| && 0 <= b < |t1| && url in t1[a].child && url in t1[b].child ensures a == b {
      OneHolder(t, root, a, b, url);
    }
  }

  // ----- what a graceful leave tells the parent -----

  /** `payload.split('&').collect()` */
  function SplitAmp(s: string): (r: seq<string>)
    ensures |r| >= 1
  {
    if s == "" then [""]
    else
      var rest := SplitAmp(s[1..]);
      if s[0] == '&' then [""] + rest else [[s[0]] + rest[0]] + rest[1..]
  }

  lemma {:induction false} SplitPlain(s: string)
    ensures SplitAmp(s) == [s] <==> '&' !in s
    ensures '&' in s <==> |SplitAmp(s)| >= 2
  {
    if s != "" {
      SplitPlain(s[1..]);
      assert s == [s[0]] + s[1..];
    }
  }

  lemma {:induction false} SplitFirst(a: string, b: string)
    requires '&' !in a
    ensures SplitAmp(a + "&" + b) == [a] + SplitAmp(b)
  {
    var s := a + "&" + b;
    if a == "" {
      assert s[1..] == b;
    } else {
      SplitFirst(a[1..], b);
      assert s[1..] == a[1..] + "&" + b;
      assert a == [a[0]] + a[1..];
    }
  }

  lemma {:induction false} SplitMany(a: string, b: string)
    requires '&' in a
    ensures |SplitAmp(a + "&" + b)| >= 3
  {
    var s := a + "&" + b;
    assert s[1..] == a[1..] + "&" + b && a == [a[0]] + a[1..];
    if '&' in a[1..] {
      SplitMany(a[1..], b);
    } else {
      SplitFirst(a[1..], b);
    }
  }

  /** The node and the period that the parent is told to connect with, if the reply of the repair holds them */
  function Wired(resp: Response): Option<(string, string)> {
    if resp.BadReq? then None
    else
      var parts := SplitAmp(resp.operation);
      if |parts| == 2 && parts[0] != "" then Some((parts[0], parts[1])) else None
  }

  lemma WiredPair(r: string, period: string)
    requires r != ""
    ensures Wired(Success(r + "&" + period)) ==
            if '&' !in r && '&' !in period then Some((r, period)) else None
  {
    hide SplitAmp;
    if '&' in r {
      SplitMany(r, period);
    } else {
      SplitFirst(r, period);
      SplitPlain(period);
    }
  }

  lemma WiredNone(s: string)
    requires '&' !in s
    ensures Wired(Success(s)) == None
  {
    SplitPlain(s);
  }

  /** The parent is told of the replacement if and only if there is one and neither its URL nor the period holds the
      separator; it is never told of another node. */
  lemma WiredIff(t: Table, from: string, target: string, period: string)
    requires Known(t, from)
    ensures var r := Replacement(t, from, target);
            Wired(RepairReply(t, from, target, period)) ==
            if r != "" && '&' !in r && '&' !in period then Some((r, period)) else None
  {
    hide Wired, Replacement;
    var r := Replacement(t, from, target);
    if r == "" {
      WiredNone("Unresponsive node removed!");
    } else {
      WiredPair(r, period);
    }
  }

  /** Whom a `/leave` tells what: the leaver's parent, the node it is to connect to, and the period */
  function LeaveTells(t: Table, from: string, period: string): Option<(string, string, string)> {
    var p := ParentPos(t, from);
    if p == |t| then None
    else
      match Wired(RepairReply(t, t[p].url, from, period))
      case None => None
      case Some(pair) => Some((t[p].url, pair.0, pair.1))
  }

  /** In every tree: a leave tells someone exactly when the leaver had children, and the replacement's URL is not empty
      and splits like the period in one piece.  It is then the leaver's old parent that is told, and what it is told to
      connect to is the child it has gained in the table. */
  lemma LeaveTellsParent(t: Table, root: string, branches: nat, from: string, period: string)
    requires Spanning(t, root)
    ensures t != []
    ensures var r := t[LastDeepest(t)].url;
            LeaveTells(t, from, period).Some? <==>
            from in NodesOf(t) && from != root && NodesOf(t)[from].child != [] && r != "" && '&' !in r && '&' !in period
    ensures LeaveTells(t, from, period).Some? ==>
              var (parent, r, q) := LeaveTells(t, from, period).value;
              var s := Step(t, root, branches, Leave(from));
              && q == period && parent in NodesOf(t) && from in NodesOf(t)[parent].child
              && Spanning(s, root) && parent in NodesOf(s) && r in NodesOf(s)
              && r in NodesOf(s)[parent].child && r !in NodesOf(t)[parent].child
  {
    hide Spanning, Repair, Replacement, LastDeepest, RepairReply, Wired;
    SomeNode(t, root);
    LeaveIsParentRepair(t, root, from);
    var p := ParentPos(t, from);
    if p < |t| {
      ChildIsKnown(t, root, t[p].url, from);
      ParentTold(t, root, t[p].url, from, period);
    }
  }

  lemma SomeNode(t: Table, root: string)
    requires Spanning(t, root)
    ensures t != []
  {
    DeepestInTree(t, root);
  }

  lemma ParentTold(t: Table, root: string, parent: string, from: string, period: string)
    requires ParentAndChild(t, root, parent, from)
    ensures t != [] && from in NodesOf(t) && Spanning(Repair(t, parent, from), root)
    ensures var r := t[LastDeepest(t)].url;
            Wired(RepairReply(t, parent, from, period)) ==
            if NodesOf(t)[from].child != [] && r != "" && '&' !in r && '&' !in period then Some((r, period)) else None
    ensures NodesOf(t)[from].child != [] ==>
              var s, r := Repair(t, parent, from), t[LastDeepest(t)].url;
              && parent in NodesOf(s) && r in NodesOf(s)
              && r in NodesOf(s)[parent].child && r !in NodesOf(t)[parent].child
  {
    hide IsTree, Repair, Replacement, LastDeepest, Wired, RepairReply;
    WiredIff(t, parent, from, period);
    var k :| 0 <= k < |NodesOf(t)[parent].child| && NodesOf(t)[parent].child[k] == from;
    ReplacementJoinsParent(t, root, parent, from, k);
    SomeNode(t, root);
  }
}
