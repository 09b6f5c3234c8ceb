/** The request handlers of the root's web server that read and update the table of known proxies.

    Each handler runs under the table's lock and is one step.  The HTTP calls that tell other proxies
    about the new topology are not modelled; the replies are.
 */
module WebServer {
  import opened Basics
  import opened TbonTable
  import opened TbonRepair
  import opened TbonKary
  import opened TbonBinomial
  import opened TbonRuns
  import opened TbonReplies

  // ----- the topology listing -----

  function EdgesOf(x: ClientPivot, n: nat): (r: seq<(string, string)>)
    requires n <= |x.child|
    ensures |r| == n && forall i :: 0 <= i < n ==> r[i] == (x.url, x.child[i])
  {
    seq(n, i requires 0 <= i < n => (x.url, x.child[i]))
  }

  /** All parent-child pairs, record by record */
  function Edges(t: Table): seq<(string, string)> {
    if t == [] then [] else Edges(t[..|t| - 1]) + EdgesOf(t[|t| - 1], |t[|t| - 1].child|)
  }

  ghost predicate IsEdge(t: Table, e: (string, string)) {
    exists x :: x in t && x.url == e.0 && e.1 in x.child
  }

  ghost predicate ListsEveryChildOnce(es: seq<(string, string)>, t: Table) {
    && (forall i, j :: 0 <= i < j < |es| ==> es[i].1 != es[j].1)
    && (forall e :: e in es <==> IsEdge(t, e))
  }

  lemma {:induction false} EdgesAre(t: Table, root: string, n: nat)
    requires Spanning(t, root) && n <= |t|
    ensures ListsEveryChildOnce(Edges(t[..n]), t[..n])
  {
    if n > 0 {
      EdgesAre(t, root, n - 1);
      var before, x := t[..n - 1], t[n - 1];
      assert t[..n][..n - 1] == before && t[..n] == before + [x];
      var es, fs := Edges(before), EdgesOf(x, |x.child|);
      assert Edges(t[..n]) == es + fs;
      LastEdges(t, root, n - 1, es, fs);
      forall e ensures e in es + fs <==> IsEdge(t[..n], e) {
        EdgeOfLast(before, x, e);
      }
    }
  }

  lemma EdgeOfLast(before: Table, x: ClientPivot, e: (string, string))
    ensures IsEdge(before + [x], e) <==> IsEdge(before, e) || e in EdgesOf(x, |x.child|)
  {
    var t, fs := before + [x], EdgesOf(x, |x.child|);
    if IsEdge(before, e) {
      var y :| y in before && y.url == e.0 && e.1 in y.child;
      assert y in t;
    }
    if e in fs {
      assert x in t && x.url == e.0 && e.1 in x.child;
    }
    if IsEdge(t, e) && !IsEdge(before, e) {
      var i :| 0 <= i < |x.child| && x.child[i] == e.1;
      assert fs[i] == e;
    }
  }

  lemma EdgeElsewhere(t: Table, root: string, n: nat, e: (string, string))
    requires Spanning(t, root) && n < |t| && IsEdge(t[..n], e)
    ensures e.1 !in t[n].child
  {
    hide IsTree;
    var x :| x in t[..n] && x.url == e.0 && e.1 in x.child;
    var k :| 0 <= k < n && t[k] == x;
    if e.1 in t[n].child { OneHolder(t, root, k, n, e.1); }
  }

  lemma LastEdges(t: Table, root: string, n: nat, es: seq<(string, string)>, fs: seq<(string, string)>)
    requires Spanning(t, root) && n < |t|
    requires ListsEveryChildOnce(es, t[..n]) && fs == EdgesOf(t[n], |t[n].child|)
    ensures forall i, j :: 0 <= i < j < |es + fs| ==> (es + fs)[i].1 != (es + fs)[j].1
  {
    NoDupChildren(t, root, n);
    hide Spanning, IsEdge, EdgesOf;
    forall i, j | 0 <= i < |es| && 0 <= j < |fs| ensures es[i].1 != fs[j].1 {
      assert es[i] in es;
      EdgeElsewhere(t, root, n, es[i]);
      assert fs[j].1 in t[n].child;
    }
  }

  lemma NoDupChildren(t: Table, root: string, n: nat)
    requires Spanning(t, root) && n < |t|
    ensures NoDup(t[n].child)
  {
    assert SoundRecord(TreeOf(t, root).at[t[n].url], t[n].url);
  }

  function Targets(es: seq<(string, string)>): (r: seq<string>)
    ensures |r| == |es| && forall i :: 0 <= i < |es| ==> r[i] == es[i].1
  {
    seq(|es|, i requires 0 <= i < |es| => es[i].1)
  }

  lemma EdgeTargets(t: Table, root: string, c: string)
    requires Spanning(t, root) && ListsEveryChildOnce(Edges(t), t)
    ensures c in Targets(Edges(t)) <==> c in NodesOf(t) && c != root
  {
    hide Edges;
    var es, cs, o := Edges(t), Targets(Edges(t)), TreeOf(t, root);
    if c in cs {
      var i :| 0 <= i < |es| && es[i].1 == c;
      assert es[i] in es && IsEdge(t, es[i]);
      var x :| x in t && x.url == es[i].0 && c in x.child;
      assert c in o.at[x.url].child;
    }
    if c in o.at && c != root {
      var j := SomeHolder(t, root, c);
      assert t[j] in t && IsEdge(t, (t[j].url, c));
      var i :| 0 <= i < |es| && es[i] == (t[j].url, c);
      assert cs[i] == c;
    }
  }

  /** The listing of a tree of n nodes has n - 1 pairs: each node but the root, once, with its parent. */
  lemma EdgesSpan(t: Table, root: string)
    requires Spanning(t, root)
    ensures |Edges(t)| == |t| - 1
    ensures ListsEveryChildOnce(Edges(t), t)
  {
    EdgesAre(t, root, |t|);
    assert t[..|t|] == t;
    hide Spanning, Edges, IsEdge;
    var cs := Targets(Edges(t));
    NoDupSize(cs);
    forall c ensures c in cs <==> c in NodesOf(t) && c != root {
      EdgeTargets(t, root, c);
    }
    AllButRoot(t, root, cs);
  }

  /** The pairs are listed record by record, and for a record in the order of its children. */
  lemma {:induction false} EdgeAt(t: Table, i: nat, k: nat)
    requires i < |t| && k < |t[i].child|
    ensures var n := |Edges(t[..i])| + k; n < |Edges(t)| && Edges(t)[n] == (t[i].url, t[i].child[k])
  {
    var front := t[..|t| - 1];
    if i < |t| - 1 {
      EdgeAt(front, i, k);
      assert front[..i] == t[..i];
    }
  }

  lemma AllButRoot(t: Table, root: string, cs: seq<string>)
    requires Spanning(t, root) && forall c :: c in cs <==> c in NodesOf(t) && c != root
    ensures |set c | c in cs| == |t| - 1
  {
    assert root in NodesOf(t);
    NodesSize(t);
    assert (set c | c in cs) == NodesOf(t).Keys - {root};
  }

  // ----- the searches -----

  /** The table in use describes the tree o. */
  ghost predicate Describes(t: Table, o: Tree) {
    UniqueUrls(t) && NodesOf(t) == o.at
  }

  method GetSubtreeSize(clients: Table, client: ClientPivot, ghost o: Tree) returns (size: nat)
    requires Describes(clients, o) && client in clients
    ensures client.url in o.at && size == Size(o, client.url) == |Descendants(o, client.url)|
    decreases Deeper(o, client.depth)
  {
    hide Describes, Deeper, IsTree, Find, Descendants;
    ClientLookup(clients, o, client);
    size := 1;
    var i := 0;
    while i < |client.child|
      invariant 0 <= i <= |client.child|
      invariant size == 1 + SizeSum(o, client.url, i)
    {
      ChildLookup(clients, o, client, i);
      var p := Find(clients, client.child[i]);
      if p < |clients| {
        DeeperShrinks(o, client.url, client.child[i]);
        var s := GetSubtreeSize(clients, clients[p], o);
        size := size + s;
      }
      i := i + 1;
    }
    SizeCountsDescendants(o, client.url);
  }

  /** The first loop of `add_node_to_subtree`: each child with the size of its subtree */
  method CollectSubtrees(clients: Table, client: ClientPivot, ghost o: Tree) returns (subtrees: Subtrees)
    requires Describes(clients, o) && client in clients
    ensures client.url in o.at && o.at[client.url] == client
    ensures subtrees == SubtreesOf(o, client.url, |client.child|)
  {
    ClientLookup(clients, o, client);
    hide Describes, Size;
    subtrees := [];
    var n := 0;
    while n < |client.child|
      invariant 0 <= n <= |client.child|
      invariant subtrees == SubtreesOf(o, client.url, n)
    {
      ChildLookup(clients, o, client, n);
      var p := Find(clients, client.child[n]);
      if p < |clients| {
        var size := GetSubtreeSize(clients, clients[p], o);
        var pair: (string, nat) := (client.child[n], size % U32_MODULUS);
        subtrees := subtrees + [pair];
      }
      n := n + 1;
    }
  }

  lemma ScanNext(subs: Subtrees, i: nat, order: nat, found: string)
    requires i < order
    ensures var r := Remaining(subs, found);
            var hit := FirstOfSize(r, Pow2(i));
            var smaller := FirstSmaller(r, Pow2(i));
            Scan(subs, i, order, found) ==
              if hit == "" && smaller.Some? then Descend(i, smaller.value) else Scan(r, i + 1, order, hit)
  {
    hide Pow2, FirstOfSize, FirstSmaller, Drop;
  }

  lemma ScanDone(subs: Subtrees, i: nat, order: nat, found: string)
    requires i >= order
    ensures Scan(subs, i, order, found) == Stay
  {
  }

  /** The second loop of `add_node_to_subtree` */
  method ScanSubtrees(subs: Subtrees, order: nat) returns (r: Outcome)
    ensures r == Scan(subs, 0, order, "")
  {
    hide Pow2, FirstOfSize, FirstSmaller, Drop, Scan;
    var subtrees, found, i := subs, "", 0;
    while i < order
      invariant 0 <= i <= order
      invariant Scan(subtrees, i, order, found) == Scan(subs, 0, order, "")
    {
      ScanNext(subtrees, i, order, found);
      if found != "" {
        subtrees := Drop(subtrees, found);
      }
      found := FirstOfSize(subtrees, Pow2(i));
      if found == "" {
        var smaller := FirstSmaller(subtrees, Pow2(i));
        if smaller.Some? {
          return Descend(i, smaller.value);
        }
      }
      i := i + 1;
    }
    ScanDone(subtrees, i, order, found);
    r := Stay;
  }

  lemma PlaceStep(t: Table, o: Tree, order: nat, u: string)
    requires Describes(t, o) && u in o.at
    ensures Find(t, u) < |t| && t[Find(t, u)] in t && t[Find(t, u)].url == u && t[Find(t, u)] == o.at[u]
    ensures var r := Scan(SubtreesOf(o, u, |o.at[u].child|), 0, order, "");
            && (order == 0 || r.Stay? ==> Place(o, order, u) == u)
            && (order > 0 && r.Descend? ==>
                  r.order < order && r.url in o.at && Place(o, order, u) == Place(o, r.order, r.url))
  {
    hide Scan, SubtreesOf, Find;
    FindIsLookup(t, u);
    assert order > 0 ==> ScanAt(o, u, order) == Scan(SubtreesOf(o, u, |o.at[u].child|), 0, order, "");
  }

  method AddNodeToSubtree(clients: Table, order: nat, clientUrl: string, ghost o: Tree) returns (r: string)
    requires Describes(clients, o) && clientUrl in o.at
    ensures r == Place(o, order, clientUrl)
    decreases order
  {
    hide *;
    PlaceStep(clients, o, order, clientUrl);
    if order == 0 {
      return clientUrl;
    }
    var client := clients[Find(clients, clientUrl)];
    var subtrees := CollectSubtrees(clients, client, o);
    var outcome := ScanSubtrees(subtrees, order);
    match outcome
    case Stay => r := clientUrl;
    case Descend(i, next) => r := AddNodeToSubtree(clients, i, next, o);
  }

  /** The loop that hands the target's children to its replacement */
  method AdoptAll(x: ClientPivot, children: seq<string>) returns (r: ClientPivot)
    ensures r == Adopt(x, children)
  {
    r := x;
    for i := 0 to |children|
      invariant r == x.(refcount := x.refcount + i, child := x.child + children[..i])
    {
      r := r.MapTo(children[i]);
      assert children[..i + 1] == children[..i] + [children[i]];
    }
    assert children[..|children|] == children;
  }

  // ----- the handlers -----

  class Web {
    const url: string
    const branches: nat
    var clients: seq<ClientPivot>

    constructor (url: string, branches: nat)
      ensures this.url == url && this.branches == branches
      ensures clients == [ClientPivot(url, 0, [], 0)] && Spanning(clients, url)
    {
      this.url := url;
      this.branches := branches;
      this.clients := [ClientPivot(url, 0, [], 0)];
      LoneRoot(url);
    }

    method GetTargetNode() returns (r: string)
      requires if branches == 0 then Spanning(clients, url) else clients != []
      ensures if branches == 0
              then r == Place(TreeOf(clients, url), TreeOf(clients, url).at[url].refcount, url)
              else r == clients[Shallowest(clients, branches)].url
    {
      if branches == 0 {
        FindIsLookup(clients, url);
        var root := clients[Find(clients, url)];
        r := AddNodeToSubtree(clients, root.refcount, url, TreeOf(clients, url));
      } else {
        r := clients[Shallowest(clients, branches)].url;
      }
    }

    /** `/pivot` */
    method HandlePivot(from: string) returns (resp: Response)
      requires Spanning(clients, url)
      modifies this`clients
      ensures (clients, resp) == PivotResult(old(clients), url, branches, from)
    {
      hide *;
      PivotFacts(clients, url, branches, from);
      if ContainsHttp(from) {
        return BadReq("From should not be an URL (with http://) but host:port");
      }
      var targetUrl := GetTargetNode();
      var p := Find(clients, targetUrl);
      AttachIs(clients, p, from);
      var depth := clients[p].depth + 1;
      clients := clients[p := clients[p].MapTo(from)];
      clients := clients + [ClientPivot(from, 0, [], depth)];
      resp := Success(targetUrl);
    }

    /** The part of `repair_tbon` for a target with children: a deepest node takes its place. */
    method GraftReplacement(f: nat, p: nat) returns (replacement: string)
      requires f < |clients| && p < |clients|
      modifies this`clients
      ensures clients == Graft(old(clients), f, p, LastDeepest(old(clients)))
      ensures replacement == old(clients)[LastDeepest(old(clients))].url
    {
      hide ParentPos, LastDeepest, Without, Adopt;
      var r := LastDeepest(clients);
      replacement := clients[r].url;
      if replacement !in clients[p].child {
        var q := ParentPos(clients, replacement);
        if q < |clients| {
          clients := clients[q := clients[q].RemoveFrom(replacement)];
        }
      }
      assert clients == Detach(old(clients), p, replacement);
      clients := clients[f := clients[f].MapTo(replacement)];
      clients := clients[r := clients[r].(depth := clients[f].depth + 1)];
      var adopter := AdoptAll(clients[r], Without(clients[p].child, replacement));
      clients := clients[r := adopter];
    }

    /** The core of `/remove` and `/leave`.  The replacement's sampling period, or the default when it does not
        answer, comes from the network. */
    method RepairTbon(from: string, target: string, period: string) returns (resp: Response)
      modifies this`clients
      ensures clients == Repair(old(clients), from, target)
      ensures resp == RepairReply(old(clients), from, target, period)
    {
      hide Find, Graft, LastDeepest, Forget, Without;
      var f := Find(clients, from);
      if f == |clients| {
        return BadReq("No such from client " + from);
      }
      clients := clients[f := clients[f].RemoveFrom(target)];
      var replacement := "";
      var p := Find(clients, target);
      if p < |clients| && clients[p].refcount != 0 {
        replacement := GraftReplacement(f, p);
      }
      assert clients == Mend(old(clients), f, target);
      clients := Forget(clients, target);
      resp := Success(if replacement == "" then "Unresponsive node removed!" else replacement + "&" + period);
    }

    /** `/remove` */
    method HandleRemove(from: string, target: string, period: string) returns (resp: Response)
      requires Spanning(clients, url)
      modifies this`clients
      ensures clients == Step(old(clients), url, branches, Remove(from, target))
      ensures !ContainsHttp(from) && !ContainsHttp(target) ==> resp == RepairReply(old(clients), from, target, period)
      ensures ContainsHttp(from) ==> resp == BadReq("From should not be an URL (with http://) but host:port")
      ensures !ContainsHttp(from) && ContainsHttp(target) ==>
                resp == BadReq("Target should not be an URL (with http://) but host:port")
      ensures Spanning(clients, url) <==> Benign(old(clients), url, Remove(from, target))
    {
      StepKeepsTreeIff(clients, url, branches, Remove(from, target));
      if ContainsHttp(from) {
        return BadReq("From should not be an URL (with http://) but host:port");
      }
      if ContainsHttp(target) {
        return BadReq("Target should not be an URL (with http://) but host:port");
      }
      resp := RepairTbon(from, target, period);
    }

    /** `/leave`: the leaver's parent is looked up, so the repair always names the right pair.  The second result is
        the request to connect that is sent to that parent. */
    method HandleLeave(from: string, period: string)
      returns (resp: Response, told: Option<(string, string, string)>)
      requires Spanning(clients, url)
      modifies this`clients
      ensures clients == Step(old(clients), url, branches, Leave(from))
      ensures Spanning(clients, url)
      ensures NodesOf(clients).Keys == NodesOf(old(clients)).Keys - (if from == url then {} else {from})
      ensures resp == if from == url || from !in NodesOf(old(clients))
                      then Success("Node " + from + " not tracked in TBON")
                      else Success("Node " + from + " left gracefully")
      ensures told == LeaveTells(old(clients), from, period)
    {
      hide *;
      LeaveFacts(clients, url, branches, from, period);
      var p := ParentPos(clients, from);
      if p == |clients| {
        return Success("Node " + from + " not tracked in TBON"), None;
      }
      var parent := clients[p].url;
      var repaired := RepairTbon(parent, from, period);
      told := None;
      if repaired.Success? {
        var parts := SplitAmp(repaired.operation);
        if |parts| == 2 && parts[0] != "" {
          told := Some((parent, parts[0], parts[1]));
        }
      }
      resp := Success("Node " + from + " left gracefully");
    }

    /** `/topo` */
    method HandleTopo() returns (resp: seq<(string, string)>)
      requires Spanning(clients, url)
      ensures resp == if |clients| == 1 then [(url, url)] else Edges(clients)
    {
      hide Spanning, EdgesOf, ListsEveryChildOnce, NodesOf, IsTree;
      resp := [];
      var i := 0;
      while i < |clients|
        invariant 0 <= i <= |clients|
        invariant resp == Edges(clients[..i])
      {
        var c := clients[i];
        var n := 0;
        while n < |c.child|
          invariant 0 <= n <= |c.child|
          invariant resp == Edges(clients[..i]) + EdgesOf(c, n)
        {
          resp := resp + [(c.url, c.child[n])];
          n := n + 1;
        }
        assert clients[..i + 1][..i] == clients[..i];
        i := i + 1;
      }
      assert clients[..i] == clients;
      EdgesSpan(clients, url);
      if resp == [] {
        resp := resp + [(url, url)];
      }
    }
  }

  lemma ClientLookup(t: Table, o: Tree, client: ClientPivot)
    requires Describes(t, o) && client in t
    ensures client.url in o.at && o.at[client.url] == client
  {
    var j :| 0 <= j < |t| && t[j] == client;
  }

  lemma ChildLookup(t: Table, o: Tree, client: ClientPivot, i: nat)
    requires Describes(t, o) && client in t && i < |client.child|
    ensures var c := client.child[i];
            && c in o.at && Find(t, c) < |t| && t[Find(t, c)] == o.at[c] && t[Find(t, c)] in t
            && o.at[c].url == c && o.at[c].depth == client.depth + 1
  {
    ClientLookup(t, o, client);
    assert client.child[i] in o.at[client.url].child;
    FindIsLookup(t, client.child[i]);
  }

  lemma AttachIs(t: Table, p: nat, url: string)
    requires p < |t|
    ensures Attach(t, p, url) == t[p := t[p].MapTo(url)] + [ClientPivot(url, 0, [], t[p].depth + 1)]
  {
  }

  lemma LeaveFacts(t: Table, root: string, branches: nat, from: string, period: string)
    requires Spanning(t, root)
    ensures LeaveTells(t, from, period) ==
            var p := ParentPos(t, from);
            if p == |t| then None
            else
              var reply := RepairReply(t, t[p].url, from, period);
              if reply.Success? && |SplitAmp(reply.operation)| == 2 && SplitAmp(reply.operation)[0] != ""
              then Some((t[p].url, SplitAmp(reply.operation)[0], SplitAmp(reply.operation)[1])) else None
    ensures var p, s := ParentPos(t, from), Step(t, root, branches, Leave(from));
            && p <= |t| && (p == |t| <==> from == root || from !in NodesOf(t))
            && s == (if p == |t| then t else Repair(t, t[p].url, from))
            && Spanning(s, root) && NodesOf(s).Keys == NodesOf(t).Keys - (if from == root then {} else {from})
  {
    hide IsTree, Repair, Spanning, NoLarger, NodesOf, Target, ParentPos, RepairReply, SplitAmp;
    LeaveIsParentRepair(t, root, from);
    var p := ParentPos(t, from);
    if p < |t| {
      ChildIsKnown(t, root, t[p].url, from);
      RepairKeepsTree(t, root, t[p].url, from);
    }
  }

  lemma PivotFacts(t: Table, root: string, branches: nat, from: string)
    requires Spanning(t, root)
    ensures t != [] && root in NodesOf(t)
    ensures Find(t, t[Target(t, root, branches)].url) == Target(t, root, branches)
    ensures branches != 0 ==> Target(t, root, branches) == Shallowest(t, branches)
    ensures branches == 0 ==>
            t[Target(t, root, 0)].url == Place(TreeOf(t, root), TreeOf(t, root).at[root].refcount, root)
    ensures PivotResult(t, root, branches, from) ==
            if ContainsHttp(from) then (t, BadReq("From should not be an URL (with http://) but host:port"))
            else (Attach(t, Target(t, root, branches), from), Success(t[Target(t, root, branches)].url))
  {
    TargetBinomial(t, root);
    FindIsLookup(t, t[Target(t, root, branches)].url);
  }
}
