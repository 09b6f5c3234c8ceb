/** Attaching a node and cutting one out: `mapto`, `removefrom`, `repair_tbon`.

    The functions follow the server's updates of the vector one by one.  The lemmas show which of
    them keep the table a tree, in both directions.
 */
module TbonRepair {
  import opened TbonTable

  // ----- attaching a node -----

  /** The state change of `/pivot` once the parent has been chosen */
  function Attach(t: Table, p: nat, url: string): Table
    requires p < |t|
  {
    t[p := t[p].MapTo(url)] + [ClientPivot(url, 0, [], t[p].depth + 1)]
  }

  ghost function AttachedAt(m: Nodes, parent: string, url: string): Nodes
    requires parent in m
  {
    m[parent := m[parent].MapTo(url)][url := ClientPivot(url, 0, [], m[parent].depth + 1)]
  }

  lemma AttachedFrom(t: Table, p: nat, url: string, u: string)
    requires UniqueUrls(t) && p < |t| && !Known(t, url)
    requires u in AttachedAt(NodesOf(t), t[p].url, url)
    ensures var x := AttachedAt(NodesOf(t), t[p].url, url)[u]; x in Attach(t, p, url) && x.url == u
  {
    var s := Attach(t, p, url);
    var x := AttachedAt(NodesOf(t), t[p].url, url)[u];
    if u == url {
      assert s[|t|] == x;
    } else {
      var i :| 0 <= i < |t| && t[i].url == u;
      assert s[i] == x;
    }
  }

  lemma AttachNodes(t: Table, p: nat, url: string)
    requires UniqueUrls(t) && p < |t| && !Known(t, url)
    ensures UniqueUrls(Attach(t, p, url))
    ensures NodesOf(Attach(t, p, url)) == AttachedAt(NodesOf(t), t[p].url, url)
  {
    forall u | u in AttachedAt(NodesOf(t), t[p].url, url) {
      AttachedFrom(t, p, url, u);
    }
    NodesAre(Attach(t, p, url), AttachedAt(NodesOf(t), t[p].url, url));
  }

  lemma AttachedLinked(o: Tree, parent: string, url: string)
    requires parent in o.at && url !in o.at
    ensures Linked(Overlay(o.root, AttachedAt(o.at, parent, url)))
  {
    var o' := Overlay(o.root, AttachedAt(o.at, parent, url));
    assert forall c :: c in o.at[parent].child ==> c != url;
    forall u, c | u in o'.at && c in o'.at[u].child
      ensures c in o'.at && c != o.root && o'.at[c].depth == o'.at[u].depth + 1
    {
      if c != url { assert c in o.at[u].child; }
    }
  }

  lemma AttachedOneParent(o: Tree, parent: string, url: string)
    requires parent in o.at && url !in o.at
    ensures OneParent(Overlay(o.root, AttachedAt(o.at, parent, url)))
  {
    var o' := Overlay(o.root, AttachedAt(o.at, parent, url));
    forall u, c | u in o'.at && c in o'.at[u].child
      ensures if c == url then u == parent else u in o.at && c in o.at[u].child
    {
      if u != url && u != parent { assert c in o.at[u].child; }
    }
  }

  lemma AttachedSound(o: Tree, parent: string, url: string)
    requires parent in o.at && url !in o.at
    ensures Sound(Overlay(o.root, AttachedAt(o.at, parent, url)))
  {
    assert SoundRecord(o.at[parent], parent);
    assert url !in o.at[parent].child;
  }

  lemma AttachedIsTree(o: Tree, parent: string, url: string)
    requires parent in o.at && url !in o.at
    ensures IsTree(Overlay(o.root, AttachedAt(o.at, parent, url)))
  {
    var o' := Overlay(o.root, AttachedAt(o.at, parent, url));
    AttachedSound(o, parent, url);
    AttachedLinked(o, parent, url);
    AttachedOneParent(o, parent, url);
    forall v | v in o'.at && v != o.root ensures HasParent(o', v) {
      if v == url {
        assert o'.at[parent].child[|o.at[parent].child|] == url;
        assert url in o'.at[parent].child;
      } else {
        var p := Parent(o, v);
        assert v in o'.at[p].child;
      }
    }
  }

  /** A join keeps the table a tree exactly when the joining URL is new. */
  lemma AttachKeepsTree(t: Table, root: string, p: nat, url: string)
    requires Spanning(t, root) && p < |t|
    ensures Spanning(Attach(t, p, url), root) <==> !Known(t, url)
  {
    var s := Attach(t, p, url);
    if Known(t, url) {
      var i :| 0 <= i < |t| && t[i].url == url;
      assert s[i].url == s[|t|].url;
    } else {
      AttachNodes(t, p, url);
      AttachedIsTree(TreeOf(t, root), t[p].url, url);
    }
  }

  // ----- cutting a node out -----

  /** `max_by_key(|v| v.depth)`: the last of the deepest records */
  function LastDeepest(t: Table): (r: nat)
    requires t != []
    ensures r < |t|
    ensures forall i :: 0 <= i < |t| ==> t[i].depth <= t[r].depth
    ensures forall i :: r < i < |t| ==> t[i].depth < t[r].depth
  {
    if |t| == 1 then 0 else
      var r := LastDeepest(t[..|t| - 1]);
      assert forall i :: 0 <= i < |t| - 1 ==> t[i] == t[..|t| - 1][i];
      if t[r].depth <= t[|t| - 1].depth then |t| - 1 else r
  }

  /** The loop that maps each orphan to its new parent */
  function Adopt(x: ClientPivot, cs: seq<string>): (r: ClientPivot)
    ensures r == x.(refcount := x.refcount + |cs|, child := x.child + cs)
    decreases |cs|
  {
    if cs == [] then x else
      assert cs == [cs[0]] + cs[1..];
      Adopt(x.MapTo(cs[0]), cs[1..])
  }

  /** Detach the replacement from its present parent, unless it already hangs below the target. */
  function Detach(t: Table, target: nat, url: string): (r: Table)
    requires target < |t|
    ensures |r| == |t|
  {
    if url in t[target].child then t
    else
      var p := ParentPos(t, url);
      if p < |t| then t[p := t[p].RemoveFrom(url)] else t
  }

  /** Hang the replacement below `from` and give it the target's other children. */
  function Graft(t: Table, from: nat, target: nat, replacement: nat): (r: Table)
    requires from < |t| && target < |t| && replacement < |t|
    ensures |r| == |t|
  {
    var url := t[replacement].url;
    var t2 := Detach(t, target, url);
    var t3 := t2[from := t2[from].MapTo(url)];
    var t4 := t3[replacement := t3[replacement].(depth := t3[from].depth + 1)];
    t4[replacement := Adopt(t4[replacement], Without(t4[target].child, url))]
  }

  /** The records after the tree has been stitched back together, the target's still among them */
  function Mend(t: Table, f: nat, target: string): (r: Table)
    requires f < |t|
    ensures |r| == |t|
  {
    var t1 := t[f := t[f].RemoveFrom(target)];
    var p := Find(t1, target);
    if p < |t1| && t1[p].refcount != 0 then Graft(t1, f, p, LastDeepest(t1)) else t1
  }

  /** The table after `repair_tbon(from, target)` */
  function Repair(t: Table, from: string, target: string): Table {
    var f := Find(t, from);
    if f == |t| then t else Forget(Mend(t, f, target), target)
  }

  /** The node chosen to replace the target, if any: the reply of `repair_tbon` */
  function Replacement(t: Table, from: string, target: string): string {
    var f := Find(t, from);
    if f == |t| then ""
    else
      var t1 := t[f := t[f].RemoveFrom(target)];
      var p := Find(t1, target);
      if p < |t1| && t1[p].refcount != 0 then t1[LastDeepest(t1)].url else ""
  }

  // ----- the effect of a repair, node by node -----

  /** The target was a leaf: it simply goes. */
  ghost function PrunedAt(m: Nodes, from: string, target: string): (r: Nodes)
    ensures r.Keys == m.Keys - {target}
  {
    map u | u in m && u != target ::
      if u == from then m[u].RemoveFrom(target) else m[u]
  }

  /** The target had children: node r takes its place. */
  ghost function GraftedAt(m: Nodes, from: string, target: string, r: string): (m': Nodes)
    requires from in m && target in m
    ensures m'.Keys == m.Keys - {target}
  {
    map u | u in m && u != target ::
      if u == from then m[u].RemoveFrom(target).MapTo(r)
      else if u == r then
        var kids := Without(m[target].child, r);
        ClientPivot(r, |kids|, kids, m[from].depth + 1)
      else if r in m[u].child then m[u].RemoveFrom(r)
      else m[u]
  }

  ghost predicate IsDeepest(o: Overlay, r: string) {
    r in o.at && Bounded(o, o.at[r].depth)
  }

  lemma ParentNotDeepest(o: Tree, r: string)
    requires r in o.at
    ensures o.at[r].child != [] ==> !IsDeepest(o, r)
  {
    if o.at[r].child != [] {
      var c := o.at[r].child[0];
      assert c in o.at[r].child && o.at[c].depth > o.at[r].depth;
    }
  }

  /** The deepest node is a leaf and is neither the target nor its parent nor a sibling. */
  lemma DeepestIsFree(o: Tree, from: string, target: string, r: string)
    requires from in o.at && target in o.at[from].child
    requires o.at[target].child != [] && IsDeepest(o, r)
    ensures o.at[r].child == [] && r != target && r != from && r != o.root
    ensures r !in o.at[from].child
    ensures o.at[r].depth >= o.at[from].depth + 2
  {
    var c := o.at[target].child[0];
    assert c in o.at[target].child;
    assert o.at[c].depth <= o.at[r].depth;
    ParentNotDeepest(o, r);
  }

  lemma PrunedEdge(o: Tree, from: string, target: string, u: string, c: string)
    requires from in o.at && target in o.at[from].child && o.at[target].child == []
    requires var m := PrunedAt(o.at, from, target); u in m && c in m[u].child
    ensures c in o.at && c != target && c in o.at[u].child
  {
  }

  lemma PrunedSound(o: Tree, from: string, target: string)
    requires from in o.at && target in o.at[from].child
    ensures Sound(Overlay(o.root, PrunedAt(o.at, from, target)))
  {
    assert SoundRecord(o.at[from], from);
  }

  lemma PrunedLinked(o: Tree, from: string, target: string)
    requires from in o.at && target in o.at[from].child && o.at[target].child == []
    ensures Linked(Overlay(o.root, PrunedAt(o.at, from, target)))
  {
    var m := PrunedAt(o.at, from, target);
    forall u, c | u in m && c in m[u].child
      ensures c in m && c != o.root && m[c].depth == m[u].depth + 1
    {
      PrunedEdge(o, from, target, u, c);
    }
  }

  lemma PrunedIsTree(o: Tree, from: string, target: string)
    requires from in o.at && target in o.at[from].child && o.at[target].child == []
    ensures IsTree(Overlay(o.root, PrunedAt(o.at, from, target)))
  {
    PrunedSound(o, from, target);
    PrunedLinked(o, from, target);
    var o' := Overlay(o.root, PrunedAt(o.at, from, target));
    forall u, c | u in o'.at && c in o'.at[u].child
      ensures u in o.at && c in o.at[u].child
    {
    }
    assert OneParent(o');
    forall v | v in o'.at && v != o.root ensures HasParent(o', v) {
      var p := Parent(o, v);
      assert v in o'.at[p].child;
    }
  }

  /** Every edge after the graft is the new edge to r or comes from an old edge. */
  lemma GraftedEdge(o: Tree, from: string, target: string, r: string, u: string, c: string)
    requires from in o.at && target in o.at[from].child
    requires o.at[target].child != [] && IsDeepest(o, r)
    requires var m := GraftedAt(o.at, from, target, r); u in m && c in m[u].child
    ensures c == r ==> u == from
    ensures c != r ==> c != target && c in o.at[if u == r then target else u].child
  {
    DeepestIsFree(o, from, target, r);
    if u == r {
      assert c in o.at[target].child;
    } else if c != r {
      assert c in o.at[u].child;
      assert c == target ==> u == from;
    }
  }

  lemma GraftedSound(o: Tree, from: string, target: string, r: string)
    requires from in o.at && target in o.at[from].child
    requires o.at[target].child != [] && IsDeepest(o, r)
    ensures Sound(Overlay(o.root, GraftedAt(o.at, from, target, r)))
  {
    DeepestIsFree(o, from, target, r);
    var m := GraftedAt(o.at, from, target, r);
    assert SoundRecord(o.at[from], from) && SoundRecord(o.at[target], target);
    forall u | u in m ensures SoundRecord(m[u], u) {
      assert SoundRecord(o.at[u], u);
      assert u == from ==> r !in Without(o.at[from].child, target);
    }
  }

  lemma GraftedLinked(o: Tree, from: string, target: string, r: string)
    requires from in o.at && target in o.at[from].child
    requires o.at[target].child != [] && IsDeepest(o, r)
    ensures Linked(Overlay(o.root, GraftedAt(o.at, from, target, r)))
  {
    DeepestIsFree(o, from, target, r);
    var m := GraftedAt(o.at, from, target, r);
    forall u, c | u in m && c in m[u].child
      ensures c in m && c != o.root && m[c].depth == m[u].depth + 1
    {
      GraftedEdge(o, from, target, r, u, c);
    }
  }

  lemma GraftedOneParent(o: Tree, from: string, target: string, r: string)
    requires from in o.at && target in o.at[from].child
    requires o.at[target].child != [] && IsDeepest(o, r)
    ensures OneParent(Overlay(o.root, GraftedAt(o.at, from, target, r)))
  {
    var m := GraftedAt(o.at, from, target, r);
    forall u, v, c | u in m && v in m && c in m[u].child && c in m[v].child ensures u == v {
      GraftedEdge(o, from, target, r, u, c);
      GraftedEdge(o, from, target, r, v, c);
    }
  }

  lemma GraftedHasParents(o: Tree, from: string, target: string, r: string, v: string)
    requires from in o.at && target in o.at[from].child
    requires o.at[target].child != [] && IsDeepest(o, r)
    requires v in o.at && v != target && v != o.root
    ensures HasParent(Overlay(o.root, GraftedAt(o.at, from, target, r)), v)
  {
    DeepestIsFree(o, from, target, r);
    var o' := Overlay(o.root, GraftedAt(o.at, from, target, r));
    if v == r {
      assert r in o'.at[from].child;
    } else {
      var p := Parent(o, v);
      if p == target {
        assert v in o'.at[r].child;
      } else {
        assert p != r;
        assert v in o'.at[p].child;
      }
    }
  }

  lemma GraftedIsTree(o: Tree, from: string, target: string, r: string)
    requires from in o.at && target in o.at[from].child
    requires o.at[target].child != [] && IsDeepest(o, r)
    ensures IsTree(Overlay(o.root, GraftedAt(o.at, from, target, r)))
  {
    DeepestIsFree(o, from, target, r);
    GraftedSound(o, from, target, r);
    GraftedLinked(o, from, target, r);
    GraftedOneParent(o, from, target, r);
    var o' := Overlay(o.root, GraftedAt(o.at, from, target, r));
    forall v | v in o'.at && v != o.root ensures HasParent(o', v) {
      GraftedHasParents(o, from, target, r, v);
    }
  }

  // ----- a repair of a child by its parent -----

  lemma FindUnchanged(t: Table, s: Table, url: string)
    requires |s| == |t| && forall i :: 0 <= i < |t| ==> s[i].url == t[i].url
    ensures Find(s, url) == Find(t, url)
  {
  }

  lemma DeepestUnchanged(t: Table, s: Table)
    requires |s| == |t| > 0 && forall i :: 0 <= i < |t| ==> s[i].depth == t[i].depth
    ensures LastDeepest(s) == LastDeepest(t)
  {
    assert s[LastDeepest(t)].depth <= s[LastDeepest(s)].depth;
  }

  lemma DeepestInTree(t: Table, root: string)
    requires Spanning(t, root)
    ensures t != [] && IsDeepest(TreeOf(t, root), t[LastDeepest(t)].url)
  {
    assert root in NodesOf(t);
    var o := TreeOf(t, root);
    var r := t[LastDeepest(t)];
    assert o.at[r.url] == r;
    forall u | u in o.at ensures o.at[u].depth <= r.depth {
      var i :| 0 <= i < |t| && t[i] == o.at[u];
    }
  }

  /** What a repair leaves behind, seen node by node */
  ghost function RepairedAt(t: Table, from: string, target: string): (r: Nodes)
    requires UniqueUrls(t) && t != []
    requires from in NodesOf(t) && target in NodesOf(t)
    ensures r.Keys == NodesOf(t).Keys - {target}
  {
    var m := NodesOf(t);
    if m[target].child == [] then PrunedAt(m, from, target)
    else GraftedAt(m, from, target, t[LastDeepest(t)].url)
  }

  /** A `from` that is the parent of `target` */
  ghost predicate ParentAndChild(t: Table, root: string, from: string, target: string) {
    && Spanning(t, root)
    && from in NodesOf(t) && target in NodesOf(t)[from].child
  }

  /** In a tree a URL stands in the child list of one record only ... */
  lemma OneHolder(t: Table, root: string, a: nat, b: nat, c: string)
    requires Spanning(t, root) && a < |t| && b < |t|
    requires c in t[a].child && c in t[b].child
    ensures a == b
  {
    var o := TreeOf(t, root);
    assert c in o.at[t[a].url].child && c in o.at[t[b].url].child;
  }

  /** ... and every node but the root stands in one. */
  lemma SomeHolder(t: Table, root: string, c: string) returns (j: nat)
    requires Spanning(t, root) && c in NodesOf(t) && c != root
    ensures j < |t| && c in t[j].child
  {
    var o := TreeOf(t, root);
    assert HasParent(o, c);
    FindIsLookup(t, Parent(o, c));
    j := Find(t, Parent(o, c));
  }

  /** Where the records involved in a repair stand */
  lemma GraftSetup(t: Table, root: string, from: string, target: string)
    requires ParentAndChild(t, root, from, target)
    ensures target in NodesOf(t)
    ensures var f, p := Find(t, from), Find(t, target);
            && f < |t| && p < |t| && f != p && t[f].url == from && t[p].url == target
            && t[f] == NodesOf(t)[from] && t[p] == NodesOf(t)[target]
            && t[p].refcount == |t[p].child|
            && Find(t[f := t[f].RemoveFrom(target)], target) == p
            && LastDeepest(t[f := t[f].RemoveFrom(target)]) == LastDeepest(t)
  {
    var o := TreeOf(t, root);
    assert target in o.at[from].child;
    FindIsLookup(t, from);
    FindIsLookup(t, target);
    var f := Find(t, from);
    var t1 := t[f := t[f].RemoveFrom(target)];
    FindUnchanged(t, t1, target);
    DeepestUnchanged(t, t1);
    assert SoundRecord(o.at[target], target);
  }

  lemma ReplacementSetup(t: Table, root: string, from: string, target: string)
    requires ParentAndChild(t, root, from, target)
    requires target in NodesOf(t) && NodesOf(t)[target].child != []
    ensures t != []
    ensures var r := t[LastDeepest(t)];
            && r.child == [] && r.refcount == 0 && r.url != from && r.url != target && r.url != root
            && r.url in NodesOf(t) && r.url !in NodesOf(t)[from].child
  {
    DeepestInTree(t, root);
    var url := t[LastDeepest(t)].url;
    DeepestIsFree(TreeOf(t, root), from, target, url);
    assert SoundRecord(TreeOf(t, root).at[url], url);
  }

  /** The URL stands in the child list of exactly one record. */
  ghost predicate HeldOnce(t: Table, url: string) {
    && (exists j :: 0 <= j < |t| && url in t[j].child)
    && forall a, b :: 0 <= a < |t| && 0 <= b < |t| && url in t[a].child && url in t[b].child ==> a == b
  }

  lemma HeldOnceInTree(t: Table, root: string, url: string)
    requires Spanning(t, root) && url in NodesOf(t) && url != root
    ensures HeldOnce(t, url)
  {
    var j := SomeHolder(t, root, url);
    forall a, b | 0 <= a < |t| && 0 <= b < |t| && url in t[a].child && url in t[b].child ensures a == b {
      OneHolder(t, root, a, b, url);
    }
  }

  lemma DetachEffect(t: Table, p: nat, url: string, i: nat)
    requires p < |t| && i < |t| && HeldOnce(t, url)
    ensures Detach(t, p, url)[i] == if i != p && url in t[i].child then t[i].RemoveFrom(url) else t[i]
  {
    var j :| 0 <= j < |t| && url in t[j].child;
    assert url in t[p].child ==> j == p;
    assert ParentPos(t, url) == j;
  }

  /** The i-th record after the graft, when f, p and r are the records of from, target and replacement */
  function GraftedOne(t: Table, f: nat, p: nat, r: nat, i: nat): ClientPivot
    requires f < |t| && p < |t| && r < |t| && i < |t|
  {
    if i == f then t[f].MapTo(t[r].url)
    else if i == r then
      var kids := Without(t[p].child, t[r].url);
      ClientPivot(t[r].url, |kids|, kids, t[f].depth + 1)
    else if t[r].url in t[i].child then t[i].RemoveFrom(t[r].url)
    else t[i]
  }

  lemma GraftEffect(t: Table, f: nat, p: nat, r: nat, i: nat)
    requires f < |t| && p < |t| && r < |t| && i < |t| && f != p && f != r && p != r && i != p
    requires HeldOnce(t, t[r].url) && t[r].url !in t[f].child
    requires t[r].child == [] && t[r].refcount == 0
    ensures Graft(t, f, p, r)[i] == GraftedOne(t, f, p, r, i)
  {
    var url := t[r].url;
    DetachEffect(t, p, url, i);
    DetachEffect(t, p, url, f);
    DetachEffect(t, p, url, r);
    DetachEffect(t, p, url, p);
    var t2 := Detach(t, p, url);
    assert t2[r] == t[r] && t2[f] == t[f] && t2[p] == t[p];
    var t3 := t2[f := t2[f].MapTo(url)];
    var t4 := t3[r := t3[r].(depth := t3[f].depth + 1)];
    assert t4[p] == t[p] && t4[r] == ClientPivot(url, 0, [], t[f].depth + 1);
  }

  lemma CutKeepsHolder(t: Table, f: nat, target: string, url: string)
    requires f < |t| && HeldOnce(t, url) && url != target
    ensures HeldOnce(t[f := t[f].RemoveFrom(target)], url)
  {
    var t1 := t[f := t[f].RemoveFrom(target)];
    var j :| 0 <= j < |t| && url in t[j].child;
    assert url in t1[j].child;
    assert forall i :: 0 <= i < |t| ==> (url in t1[i].child <==> url in t[i].child);
  }

  lemma GraftedRecord(t: Table, root: string, from: string, target: string, i: nat)
    requires ParentAndChild(t, root, from, target)
    requires target in NodesOf(t) && NodesOf(t)[target].child != []
    requires i < |t| && t[i].url != target && Find(t, from) < |t|
    ensures Mend(t, Find(t, from), target)[i] == GraftedAt(NodesOf(t), from, target, t[LastDeepest(t)].url)[t[i].url]
  {
    GraftSetup(t, root, from, target);
    ReplacementSetup(t, root, from, target);
    var f, p, r := Find(t, from), Find(t, target), LastDeepest(t);
    HeldOnceInTree(t, root, t[r].url);
    CutKeepsHolder(t, f, target, t[r].url);
    GraftEffect(t[f := t[f].RemoveFrom(target)], f, p, r, i);
    GraftedPick(t, f, p, r, i);
  }

  lemma GraftedPick(t: Table, f: nat, p: nat, r: nat, i: nat)
    requires UniqueUrls(t) && f < |t| && p < |t| && r < |t| && i < |t|
    requires f != p && f != r && p != r && i != p
    ensures GraftedOne(t[f := t[f].RemoveFrom(t[p].url)], f, p, r, i) ==
            GraftedAt(NodesOf(t), t[f].url, t[p].url, t[r].url)[t[i].url]
  {
    var m := NodesOf(t);
    assert m[t[i].url] == t[i] && m[t[p].url] == t[p] && m[t[f].url] == t[f];
    assert t[i].url == t[f].url <==> i == f;
    assert t[i].url == t[r].url <==> i == r;
  }

  lemma PrunedPick(t: Table, f: nat, p: nat, i: nat)
    requires UniqueUrls(t) && f < |t| && p < |t| && i < |t| && i != p
    ensures t[f := t[f].RemoveFrom(t[p].url)][i] == PrunedAt(NodesOf(t), t[f].url, t[p].url)[t[i].url]
  {
    assert NodesOf(t)[t[i].url] == t[i];
    assert t[i].url == t[f].url <==> i == f;
  }

  lemma PrunedRecord(t: Table, root: string, from: string, target: string, i: nat)
    requires ParentAndChild(t, root, from, target)
    requires target in NodesOf(t) && NodesOf(t)[target].child == []
    requires i < |t| && t[i].url != target && Find(t, from) < |t|
    ensures Mend(t, Find(t, from), target)[i] == PrunedAt(NodesOf(t), from, target)[t[i].url]
  {
    GraftSetup(t, root, from, target);
    PrunedPick(t, Find(t, from), Find(t, target), i);
  }

  /** The repaired table, read as a map */
  lemma RepairNodes(t: Table, root: string, from: string, target: string)
    requires ParentAndChild(t, root, from, target)
    ensures target in NodesOf(t) && t != []
    ensures UniqueUrls(Repair(t, from, target))
    ensures NodesOf(Repair(t, from, target)) == RepairedAt(t, from, target)
  {
    var o := TreeOf(t, root);
    assert target in o.at && from in o.at;
    FindIsLookup(t, from);
    var mid := Mend(t, Find(t, from), target);
    forall i | 0 <= i < |t|
      ensures mid[i].url == t[i].url
      ensures t[i].url != target ==> mid[i] == RepairedAt(t, from, target)[t[i].url]
    {
      MendKeepsUrls(t, Find(t, from), target, i);
      if t[i].url != target {
        if o.at[target].child == [] { PrunedRecord(t, root, from, target, i); }
        else { GraftedRecord(t, root, from, target, i); }
      }
    }
    RepairedCovers(t, mid, from, target);
  }

  lemma MendKeepsUrls(t: Table, f: nat, target: string, i: nat)
    requires i < |t| && f < |t|
    ensures Mend(t, f, target)[i].url == t[i].url
  {
    hide Find, LastDeepest, Graft;
    var t1 := t[f := t[f].RemoveFrom(target)];
    var p := Find(t1, target);
    if p < |t1| { GraftKeepsUrls(t1, f, p, LastDeepest(t1), i); }
  }

  lemma GraftKeepsUrls(t: Table, f: nat, p: nat, r: nat, i: nat)
    requires f < |t| && p < |t| && r < |t| && i < |t|
    ensures Graft(t, f, p, r)[i].url == t[i].url
  {
    hide ParentPos, Without, Adopt;
  }

  lemma RepairedCovers(t: Table, mid: Table, from: string, target: string)
    requires UniqueUrls(t) && t != [] && |mid| == |t|
    requires from in NodesOf(t) && target in NodesOf(t)
    requires forall i :: 0 <= i < |t| ==> mid[i].url == t[i].url
    requires forall i :: 0 <= i < |t| && t[i].url != target ==>
                           mid[i] == RepairedAt(t, from, target)[t[i].url]
    ensures UniqueUrls(Forget(mid, target))
    ensures NodesOf(Forget(mid, target)) == RepairedAt(t, from, target)
  {
    var m, s := RepairedAt(t, from, target), Forget(mid, target);
    assert UniqueUrls(mid);
    forall x | x in s ensures x.url in m && m[x.url] == x {
      var i :| 0 <= i < |mid| && mid[i] == x;
      assert t[i].url in NodesOf(t);
    }
    forall u | u in m ensures m[u] in s && m[u].url == u {
      var i :| 0 <= i < |t| && t[i].url == u;
      assert mid[i] == m[u];
    }
    NodesAre(s, m);
  }

  /** Repairing a child of `from` keeps a tree, removes exactly the target, keeps every other node
      reachable, never deepens the tree and never widens it. */
  lemma RepairKeepsTree(t: Table, root: string, from: string, target: string)
    requires ParentAndChild(t, root, from, target)
    ensures CutOut(t, root, Repair(t, from, target), target)
  {
    RepairNodes(t, root, from, target);
    var o := TreeOf(t, root);
    if o.at[target].child == [] {
      PrunedIsTree(o, from, target);
      PrunedNoLarger(o, from, target);
    } else {
      DeepestInTree(t, root);
      GraftedIsTree(o, from, target, t[LastDeepest(t)].url);
      GraftedNoLarger(o, from, target, t[LastDeepest(t)].url);
    }
  }

  /** Every record is no deeper than before and no wider than some record was before, the root no wider
      than itself. */
  ghost predicate NoLarger(m: Nodes, o: Overlay) {
    && (forall u :: u in m ==>
          u in o.at && m[u].depth <= o.at[u].depth && exists v :: v in o.at && |m[u].child| <= |o.at[v].child|)
    && (o.root in m && o.root in o.at ==> |m[o.root].child| <= |o.at[o.root].child|)
  }

  /** The target is gone, everyone else is still in one tree, and nothing grew. */
  ghost predicate CutOut(t: Table, root: string, s: Table, target: string)
    requires Spanning(t, root)
  {
    && Spanning(s, root)
    && NodesOf(s).Keys == NodesOf(t).Keys - {target}
    && NoLarger(NodesOf(s), TreeOf(t, root))
  }

  /** What is cut out never deepens the tree and never widens it. */
  lemma CutOutShrinks(t: Table, root: string, s: Table, target: string, h: int, k: nat)
    requires Spanning(t, root) && CutOut(t, root, s, target)
    ensures Bounded(TreeOf(t, root), h) ==> Bounded(TreeOf(s, root), h)
    ensures FanOut(TreeOf(t, root), k) ==> FanOut(TreeOf(s, root), k)
  {
    hide IsTree;
  }

  lemma PrunedNoLarger(o: Tree, from: string, target: string)
    requires from in o.at && target in o.at[from].child
    ensures NoLarger(PrunedAt(o.at, from, target), o)
  {
    var m := PrunedAt(o.at, from, target);
    forall u | u in m ensures |m[u].child| <= |o.at[u].child| {
      assert SoundRecord(o.at[u], u);
    }
  }

  lemma GraftedNoLarger(o: Tree, from: string, target: string, r: string)
    requires from in o.at && target in o.at[from].child
    requires o.at[target].child != [] && IsDeepest(o, r)
    ensures NoLarger(GraftedAt(o.at, from, target, r), o)
  {
    DeepestIsFree(o, from, target, r);
    assert SoundRecord(o.at[target], target);
    var m := GraftedAt(o.at, from, target, r);
    forall u | u in m
      ensures m[u].depth <= o.at[u].depth && |m[u].child| <= |o.at[if u == r then target else u].child|
    {
      assert SoundRecord(o.at[u], u);
    }
  }

  // ----- repairs that name the wrong parent -----

  lemma SpanningRecord(s: Table, root: string, x: ClientPivot)
    requires x in s
    ensures Spanning(s, root) ==> x.refcount == |x.child| && forall c :: c in x.child ==> Known(s, c)
  {
    if Spanning(s, root) {
      var i :| 0 <= i < |s| && s[i] == x;
      var o := TreeOf(s, root);
      assert o.at[x.url] == x && SoundRecord(o.at[x.url], x.url);
      forall c | c in x.child ensures Known(s, c) {
        assert c in o.at[x.url].child;
      }
    }
  }

  /** A record whose `refcount` has lost count of its children */
  ghost predicate Skewed(x: ClientPivot) {
    x.refcount == |x.child| - 1 || x.refcount == |x.child| + U32_MODULUS - 1
  }

  lemma SkewStays(t: Table, f: nat, p: nat, r: nat)
    requires f < |t| && p < |t| && r < |t| && Skewed(t[f]) && NoDup(t[f].child)
    ensures Skewed(Graft(t, f, p, r)[f])
  {
  }

  /** Removing from a record a child it does not have breaks the table. */
  lemma WrongParentBreaksTree(t: Table, root: string, from: string, target: string)
    requires Spanning(t, root) && from in NodesOf(t) && from != target
    requires target !in NodesOf(t)[from].child
    ensures !Spanning(Repair(t, from, target), root)
  {
    hide Graft, LastDeepest;
    FindIsLookup(t, from);
    var f := Find(t, from);
    assert SoundRecord(TreeOf(t, root).at[from], from);
    var t1 := t[f := t[f].RemoveFrom(target)];
    assert Skewed(t1[f]) && t1[f].child == t[f].child;
    var p := Find(t1, target);
    var mid := Mend(t, f, target);
    if p < |t1| && t1[p].refcount != 0 { SkewStays(t1, f, p, LastDeepest(t1)); }
    assert Skewed(mid[f]) && mid[f].url == from by { MendKeepsUrls(t, f, target, f); }
    var s := Repair(t, from, target);
    assert mid[f] in s;
    SpanningRecord(s, root, mid[f]);
  }

  /** A leaf that reports itself, and that `max_by_key` picks as its own replacement: its counter wraps
      around, so it is treated as having children, and is detached from its real parent. */
  ghost predicate SelfReplacing(t: Table, root: string, from: string, target: string)
    requires Spanning(t, root)
  {
    && from == target && from in NodesOf(t) && from != root
    && NodesOf(t)[from].child == [] && t != [] && t[LastDeepest(t)].url == from
  }

  /** Grafting a childless node onto itself only takes it out of its parent's list. */
  lemma SelfGraft(t: Table, f: nat, j: nat, i: nat)
    requires f < |t| && j < |t| && i < |t| && f != j && i != f
    requires t[f].child == [] && ParentPos(t, t[f].url) == j
    ensures Graft(t, f, f, f)[i] == t[j := t[j].RemoveFrom(t[f].url)][i]
  {
  }

  ghost predicate SelfSetup(t: Table, f: nat, j: nat)
    requires f < |t| && j < |t|
  {
    var t1 := t[f := t[f].RemoveFrom(t[f].url)];
    && f != j && t[f].child == [] && t[f].refcount == 0
    && Find(t1, t[f].url) == f && LastDeepest(t1) == f && ParentPos(t1, t[f].url) == j
  }

  lemma SelfReplacingLeaf(t: Table, root: string, from: string)
    requires Spanning(t, root) && SelfReplacing(t, root, from, from)
    ensures var f := Find(t, from);
            f < |t| && t[f].url == from && t[f].child == [] && t[f].refcount == 0 && LastDeepest(t) == f
  {
    FindIsLookup(t, from);
    assert SoundRecord(TreeOf(t, root).at[from], from);
  }

  lemma SelfReplacingSetup(t: Table, f: nat, j: nat)
    requires f < |t| && j < |t| && t[f].child == [] && t[f].refcount == 0
    requires Find(t, t[f].url) == f && LastDeepest(t) == f
    requires HeldOnce(t, t[f].url) && t[f].url in t[j].child
    ensures SelfSetup(t, f, j)
  {
    var t1 := t[f := t[f].RemoveFrom(t[f].url)];
    FindUnchanged(t, t1, t[f].url);
    DeepestUnchanged(t, t1);
    assert t1[j] == t[j];
    var k := ParentPos(t1, t[f].url);
    assert k <= j && t1[k] == t[k];
  }

  lemma SelfReplacingMend(t: Table, f: nat, j: nat, i: nat)
    requires UniqueUrls(t) && f < |t| && j < |t| && i < |t| && i != f && SelfSetup(t, f, j)
    ensures Mend(t, f, t[f].url)[i] == PrunedAt(NodesOf(t), t[j].url, t[f].url)[t[i].url]
  {
    SelfGraft(t[f := t[f].RemoveFrom(t[f].url)], f, j, i);
    PrunedPick(t, j, f, i);
  }

  lemma SelfReplacingNodes(t: Table, f: nat, j: nat)
    requires UniqueUrls(t) && f < |t| && j < |t| && SelfSetup(t, f, j)
    ensures var mid := Forget(Mend(t, f, t[f].url), t[f].url);
            UniqueUrls(mid) && NodesOf(mid) == PrunedAt(NodesOf(t), t[j].url, t[f].url)
  {
    var mid := Mend(t, f, t[f].url);
    forall i | 0 <= i < |t|
      ensures mid[i].url == t[i].url
      ensures t[i].url != t[f].url ==> mid[i] == PrunedAt(NodesOf(t), t[j].url, t[f].url)[t[i].url]
    {
      MendKeepsUrls(t, f, t[f].url, i);
      if i != f { SelfReplacingMend(t, f, j, i); }
    }
    RepairedCovers(t, mid, t[j].url, t[f].url);
  }

  lemma SelfReplacingPrunes(t: Table, root: string, from: string)
    requires Spanning(t, root) && SelfReplacing(t, root, from, from)
    ensures CutOut(t, root, Repair(t, from, from), from)
  {
    SelfReplacingLeaf(t, root, from);
    HeldOnceInTree(t, root, from);
    var f := Find(t, from);
    var j := SomeHolder(t, root, from);
    SelfReplacingSetup(t, f, j);
    SelfReplacingNodes(t, f, j);
    assert from in TreeOf(t, root).at[t[j].url].child;
    PrunedIsTree(TreeOf(t, root), t[j].url, from);
    PrunedNoLarger(TreeOf(t, root), t[j].url, from);
  }

  /** Any other node that reports itself is dropped from the table while its parent still lists it. */
  lemma SelfReportBreaksTree(t: Table, root: string, from: string)
    requires Spanning(t, root) && from in NodesOf(t) && !SelfReplacing(t, root, from, from)
    ensures !Spanning(Repair(t, from, from), root)
  {
    FindIsLookup(t, from);
    var f := Find(t, from);
    var s := Repair(t, from, from);
    if from == root {
      assert forall i :: 0 <= i < |s| ==> s[i] in s;
      assert !Known(s, root);
    } else {
      var j := SomeHolder(t, root, from);
      StillListed(t, root, from, j);
      MendKeepsUrls(t, f, from, j);
      assert t[j].url != from by { assert from in TreeOf(t, root).at[t[j].url].child; }
      SpanningRecord(s, root, Mend(t, f, from)[j]);
      assert forall i :: 0 <= i < |s| ==> s[i] in s;
      assert !Known(s, from);
    }
  }

  lemma SelfNotReplacement(t: Table, root: string, from: string)
    requires Spanning(t, root) && from in NodesOf(t) && from != root && !SelfReplacing(t, root, from, from)
    ensures t != [] && t[LastDeepest(t)].url != from
  {
    DeepestInTree(t, root);
    ParentNotDeepest(TreeOf(t, root), from);
  }

  lemma GraftKeepsListed(t: Table, f: nat, p: nat, r: nat, j: nat, url: string)
    requires f < |t| && p < |t| && r < |t| && j < |t|
    requires url in t[j].child && t[r].url != url
    ensures url in Graft(t, f, p, r)[j].child
  {
  }

  lemma NotOwnChild(t: Table, root: string, j: nat)
    requires Spanning(t, root) && j < |t|
    ensures t[j].url !in t[j].child
  {
    assert TreeOf(t, root).at[t[j].url] == t[j];
  }

  lemma StillListed(t: Table, root: string, from: string, j: nat)
    requires Spanning(t, root) && from in NodesOf(t) && from != root && !SelfReplacing(t, root, from, from)
    requires j < |t| && from in t[j].child && Find(t, from) < |t|
    ensures from in Mend(t, Find(t, from), from)[j].child
  {
    hide IsTree, Find, LastDeepest, Graft;
    var f := Find(t, from);
    SelfNotReplacement(t, root, from);
    NotOwnChild(t, root, j);
    var t1 := t[f := t[f].RemoveFrom(from)];
    FindUnchanged(t, t1, from);
    DeepestUnchanged(t, t1);
    GraftKeepsListed(t1, f, f, LastDeepest(t), j, from);
  }

  /** Exactly which repairs keep the table a tree: those whose `from` is unknown (refused), those whose
      `from` is the parent of `target`, and the one self-report above. */
  lemma RepairKeepsTreeIff(t: Table, root: string, from: string, target: string)
    requires Spanning(t, root)
    ensures Spanning(Repair(t, from, target), root) <==>
            || from !in NodesOf(t)
            || target in NodesOf(t)[from].child
            || SelfReplacing(t, root, from, target)
  {
    FindIsLookup(t, from);
    if from in NodesOf(t) {
      if target in NodesOf(t)[from].child {
        RepairKeepsTree(t, root, from, target);
      } else if from != target {
        WrongParentBreaksTree(t, root, from, target);
      } else if SelfReplacing(t, root, from, from) {
        SelfReplacingPrunes(t, root, from);
      } else {
        SelfReportBreaksTree(t, root, from);
      }
    }
  }
}
