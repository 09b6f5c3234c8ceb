/** Every run of the server's topology requests: joins, graceful leaves and reported failures. */
module TbonRuns {
  import opened Basics
  import opened TbonTable
  import opened TbonRepair
  import opened TbonKary
  import opened TbonBinomial

  datatype Request = Pivot(from: string) | Leave(from: string) | Remove(from: string, target: string)

  /** `contains("http")`: such a parameter is refused. */
  predicate ContainsHttp(s: string) {
    |s| >= 4 && (s[..4] == "http" || ContainsHttp(s[1..]))
  }

  /** Exactly the parameters that hold "http" somewhere are refused. */
  lemma {:induction false} ContainsHttpIff(s: string)
    ensures ContainsHttp(s) <==> exists i :: 0 <= i <= |s| - 4 && s[i..][..4] == "http"
  {
    if |s| >= 4 {
      var rest := s[1..];
      ContainsHttpIff(rest);
      assert s[0..] == s;
      assert forall i :: 0 <= i <= |rest| - 4 ==> rest[i..] == s[i + 1..];
      if i :| 0 <= i <= |rest| - 4 && rest[i..][..4] == "http" { assert s[i + 1..][..4] == "http"; }
      if i :| 1 <= i <= |s| - 4 && s[i..][..4] == "http" { assert rest[i - 1..][..4] == "http"; }
    }
  }

  /** The node below which a newcomer is attached; zero branches selects the binomial placement. */
  ghost function Target(t: Table, root: string, branches: nat): (p: nat)
    requires Spanning(t, root)
    ensures p < |t|
  {
    var o := TreeOf(t, root);
    FindIsLookup(t, root);
    if branches == 0 then
      var u := Place(o, o.at[root].refcount, root);
      FindIsLookup(t, u);
      Find(t, u)
    else Shallowest(t, branches)
  }

  /** The table after one request */
  ghost function Step(t: Table, root: string, branches: nat, req: Request): Table
    requires Spanning(t, root)
  {
    match req
    case Pivot(from) =>
      if ContainsHttp(from) then t else Attach(t, Target(t, root, branches), from)
    case Leave(from) =>
      var p := ParentPos(t, from);
      if p == |t| then t else Repair(t, t[p].url, from)
    case Remove(from, target) =>
      if ContainsHttp(from) || ContainsHttp(target) then t else Repair(t, from, target)
  }

  /** Exactly the requests that keep the table a tree */
  ghost predicate Benign(t: Table, root: string, req: Request)
    requires Spanning(t, root)
  {
    match req
    case Pivot(from) => ContainsHttp(from) || !Known(t, from)
    case Leave(from) => true
    case Remove(from, target) =>
      || ContainsHttp(from) || ContainsHttp(target)
      || from !in NodesOf(t) || target in NodesOf(t)[from].child || SelfReplacing(t, root, from, target)
  }

  lemma LeaveIsParentRepair(t: Table, root: string, from: string)
    requires Spanning(t, root)
    ensures var p := ParentPos(t, from);
            if p == |t| then from !in NodesOf(t) || from == root
            else ParentAndChild(t, root, t[p].url, from)
  {
    var p, o := ParentPos(t, from), TreeOf(t, root);
    if p == |t| {
      if from in o.at && from != root {
        var j := SomeHolder(t, root, from);
      }
    } else {
      assert o.at[t[p].url] == t[p];
    }
  }

  lemma StepKeepsTreeIff(t: Table, root: string, branches: nat, req: Request)
    requires Spanning(t, root)
    ensures Spanning(Step(t, root, branches, req), root) <==> Benign(t, root, req)
  {
    hide IsTree, Target;
    match req
    case Pivot(from) =>
      AttachKeepsTree(t, root, Target(t, root, branches), from);
    case Leave(from) =>
      LeaveIsParentRepair(t, root, from);
      if ParentPos(t, from) < |t| { RepairKeepsTree(t, root, t[ParentPos(t, from)].url, from); }
    case Remove(from, target) =>
      RepairKeepsTreeIff(t, root, from, target);
  }

  /** What a request amounts to: nothing, a newcomer attached below its target, or a node cut out. */
  datatype Effect = Nothing | Joins(url: string) | Goes(url: string)

  ghost function EffectOf(t: Table, root: string, req: Request): Effect
    requires Spanning(t, root)
  {
    match req
    case Pivot(from) => if ContainsHttp(from) then Nothing else Joins(from)
    case Leave(from) => if from == root || from !in NodesOf(t) then Nothing else Goes(from)
    case Remove(from, target) =>
      if ContainsHttp(from) || ContainsHttp(target) || from !in NodesOf(t) then Nothing else Goes(target)
  }

  /** A leave or a repair takes out exactly its target and orphans no one; anything refused changes nothing. */
  lemma StepEffect(t: Table, root: string, branches: nat, req: Request)
    requires Spanning(t, root) && Benign(t, root, req)
    ensures var s := Step(t, root, branches, req);
            match EffectOf(t, root, req)
            case Nothing => s == t
            case Joins(url) => !Known(t, url) && s == Attach(t, Target(t, root, branches), url)
            case Goes(url) => url in NodesOf(t) && url != root && CutOut(t, root, s, url)
  {
    hide IsTree, Target, CutOut, Mend, Forget, ParentPos, Find;
    match req
    case Pivot(from) =>
    case Leave(from) =>
      LeaveIsParentRepair(t, root, from);
      var p := ParentPos(t, from);
      if p < |t| {
        ChildIsKnown(t, root, t[p].url, from);
        RepairKeepsTree(t, root, t[p].url, from);
      }
    case Remove(from, target) =>
      FindIsLookup(t, from);
      if EffectOf(t, root, req).Goes? { RemoveCutsOut(t, root, from, target); }
  }

  lemma ChildIsKnown(t: Table, root: string, from: string, target: string)
    requires ParentAndChild(t, root, from, target)
    ensures target in NodesOf(t) && target != root
  {
    assert target in TreeOf(t, root).at[from].child;
  }

  lemma RemoveCutsOut(t: Table, root: string, from: string, target: string)
    requires Spanning(t, root) && from in NodesOf(t)
    requires target in NodesOf(t)[from].child || SelfReplacing(t, root, from, target)
    ensures target in NodesOf(t) && target != root && CutOut(t, root, Repair(t, from, target), target)
  {
    hide IsTree;
    if target in NodesOf(t)[from].child {
      ChildIsKnown(t, root, from, target);
      RepairKeepsTree(t, root, from, target);
    } else {
      SelfReplacingPrunes(t, root, from);
    }
  }

  /** A join by request is the join whose shape theorems are proved for sequences of joins. */
  lemma PivotIsJoin(t: Table, root: string, branches: nat, url: string)
    requires Spanning(t, root) && !ContainsHttp(url)
    ensures branches == 0 ==> Step(t, root, branches, Pivot(url)) == JoinBinomial(t, root, url)
    ensures branches != 0 ==> t != [] && Step(t, root, branches, Pivot(url)) == JoinKary(t, branches, url)
  {
    hide IsTree, Place, Shallowest, Attach;
    if branches != 0 { TargetKary(t, root, branches); }
  }

  // ----- runs -----

  /** The tables ts are passed through by the requests reqs, starting from the root alone, each request
      being one that keeps the table a tree. */
  ghost predicate IsRun(root: string, branches: nat, reqs: seq<Request>, ts: seq<Table>) {
    && |ts| == |reqs| + 1
    && ts[0] == [ClientPivot(root, 0, [], 0)]
    && forall i :: 0 <= i < |reqs| && Spanning(ts[i], root) ==>
         Benign(ts[i], root, reqs[i]) && ts[i + 1] == Step(ts[i], root, branches, reqs[i])
  }

  lemma RunStep(root: string, branches: nat, reqs: seq<Request>, ts: seq<Table>, i: nat)
    requires IsRun(root, branches, reqs, ts) && i < |reqs| && Spanning(ts[i], root)
    ensures Benign(ts[i], root, reqs[i]) && ts[i + 1] == Step(ts[i], root, branches, reqs[i])
  {
    hide Step, Spanning, Benign;
  }

  /** The table is a tree at every moment of every run. */
  lemma {:induction false} RunsKeepTree(root: string, branches: nat, reqs: seq<Request>, ts: seq<Table>, i: nat)
    requires IsRun(root, branches, reqs, ts) && i < |ts|
    ensures Spanning(ts[i], root)
  {
    hide Spanning, Benign, Step;
    if i == 0 {
      LoneRoot(root);
    } else {
      RunsKeepTree(root, branches, reqs, ts, i - 1);
      RunStep(root, branches, reqs, ts, i - 1);
      StepKeepsTreeIff(ts[i - 1], root, branches, reqs[i - 1]);
    }
  }

  lemma AttachedFanOut(m: Nodes, root: string, parent: string, url: string, k: nat)
    requires FanOut(Overlay(root, m), k) && parent in m && |m[parent].child| < k
    ensures FanOut(Overlay(root, AttachedAt(m, parent, url)), k)
  {
  }

  lemma TargetKary(t: Table, root: string, branches: nat)
    requires Spanning(t, root) && branches != 0
    ensures t != [] && Target(t, root, branches) == Shallowest(t, branches)
  {
    hide Shallowest, Place;
  }

  lemma TargetBinomial(t: Table, root: string)
    requires Spanning(t, root)
    ensures var o := TreeOf(t, root); t[Target(t, root, 0)].url == Place(o, o.at[root].refcount, root)
  {
    var o := TreeOf(t, root);
    FindIsLookup(t, Place(o, o.at[root].refcount, root));
  }

  lemma JoinKeepsFanOut(t: Table, root: string, branches: nat, url: string)
    requires Spanning(t, root) && !Known(t, url) && |t| <= I32_MAX
    requires branches % U32_MODULUS != 0 && FanOut(TreeOf(t, root), branches % U32_MODULUS)
    ensures UniqueUrls(Attach(t, Target(t, root, branches), url))
    ensures FanOut(Overlay(root, NodesOf(Attach(t, Target(t, root, branches), url))), branches % U32_MODULUS)
  {
    hide IsTree, Shallowest, Target, FanOut, Attach, AttachedAt;
    TargetKary(t, root, branches);
    JoinsShallowestFree(t, root, branches);
    AttachNodes(t, Shallowest(t, branches), url);
    AttachedFanOut(NodesOf(t), root, t[Shallowest(t, branches)].url, url, branches % U32_MODULUS);
  }

  lemma StepKeepsFanOut(t: Table, root: string, branches: nat, req: Request)
    requires Spanning(t, root) && Benign(t, root, req) && |t| <= I32_MAX
    requires branches % U32_MODULUS != 0 && FanOut(TreeOf(t, root), branches % U32_MODULUS)
    ensures Spanning(Step(t, root, branches, req), root)
    ensures FanOut(TreeOf(Step(t, root, branches, req), root), branches % U32_MODULUS)
  {
    hide IsTree, NoLarger, Step;
    StepKeepsTreeIff(t, root, branches, req);
    StepEffect(t, root, branches, req);
    match EffectOf(t, root, req)
    case Nothing =>
    case Joins(url) =>
      JoinKeepsFanOut(t, root, branches, url);
    case Goes(url) =>
      CutOutShrinks(t, root, Step(t, root, branches, req), url, 0, branches % U32_MODULUS);
  }

  /** With a branch limit the fan-out never exceeds it, at any moment of any run. */
  lemma {:induction false} RunsKeepFanOut(root: string, branches: nat, reqs: seq<Request>, ts: seq<Table>, i: nat)
    requires IsRun(root, branches, reqs, ts) && i < |ts|
    requires branches % U32_MODULUS != 0 && forall j :: 0 <= j < |ts| ==> |ts[j]| <= I32_MAX
    ensures Spanning(ts[i], root) && FanOut(TreeOf(ts[i], root), branches % U32_MODULUS)
  {
    hide Spanning, Benign, Step;
    if i == 0 {
      LoneRoot(root);
    } else {
      RunsKeepFanOut(root, branches, reqs, ts, i - 1);
      RunStep(root, branches, reqs, ts, i - 1);
      StepKeepsFanOut(ts[i - 1], root, branches, reqs[i - 1]);
    }
  }

  // ----- the root stays first -----

  ghost predicate RootFirst(t: Table, root: string) {
    t != [] && t[0].url == root
  }

  lemma RepairKeepsFirst(t: Table, root: string, from: string, target: string)
    requires RootFirst(t, root) && target != root
    ensures RootFirst(Repair(t, from, target), root)
  {
    hide Find, Mend;
    var f := Find(t, from);
    if f < |t| { MendKeepsUrls(t, f, target, 0); }
  }

  lemma StepKeepsRootFirst(t: Table, root: string, branches: nat, req: Request)
    requires Spanning(t, root) && Benign(t, root, req) && RootFirst(t, root)
    ensures RootFirst(Step(t, root, branches, req), root)
  {
    hide IsTree, Target, NoLarger, Repair, Find, ParentPos;
    StepEffect(t, root, branches, req);
    match req
    case Pivot(from) =>
    case Leave(from) =>
      LeaveIsParentRepair(t, root, from);
      if ParentPos(t, from) < |t| {
        ChildIsKnown(t, root, t[ParentPos(t, from)].url, from);
        RepairKeepsFirst(t, root, t[ParentPos(t, from)].url, from);
      }
    case Remove(from, target) =>
      if EffectOf(t, root, req).Goes? { RepairKeepsFirst(t, root, from, target); }
  }

  lemma {:induction false} RunsKeepRootFirst(root: string, branches: nat, reqs: seq<Request>, ts: seq<Table>, i: nat)
    requires IsRun(root, branches, reqs, ts) && i < |ts|
    ensures Spanning(ts[i], root) && RootFirst(ts[i], root)
  {
    hide Spanning, Benign, Step;
    RunsKeepTree(root, branches, reqs, ts, i);
    if i > 0 {
      RunsKeepRootFirst(root, branches, reqs, ts, i - 1);
      RunStep(root, branches, reqs, ts, i - 1);
      StepKeepsRootFirst(ts[i - 1], root, branches, reqs[i - 1]);
    }
  }

  /** In every run with a branch limit of 2^32 or more: no node is full and none is above the root, and yet a join
      goes below the root only while the root has fewer children than the limit modulo 2^32, or that is zero. */
  lemma RunsTruncateLimit(root: string, branches: nat, reqs: seq<Request>, ts: seq<Table>, i: nat)
    requires IsRun(root, branches, reqs, ts) && i < |ts| && |ts[i]| <= I32_MAX && branches >= U32_MODULUS
    ensures Spanning(ts[i], root) && RootFirst(ts[i], root)
    ensures forall x :: x in ts[i] ==> |x.child| < branches && ts[i][0].depth <= x.depth
    ensures Target(ts[i], root, branches) == 0 <==>
            branches % U32_MODULUS == 0 || |ts[i][0].child| < branches % U32_MODULUS
  {
    hide Spanning, IsRun, Shallowest, Target;
    RunsKeepRootFirst(root, branches, reqs, ts, i);
    TargetKary(ts[i], root, branches);
    LargeLimitTruncated(ts[i], root, branches);
  }

  // ----- requests that break the tree, and a limit that is cut -----

  /** A run goes on with any benign request. */
  lemma RunMore(root: string, branches: nat, reqs: seq<Request>, ts: seq<Table>, req: Request)
    requires IsRun(root, branches, reqs, ts) && Spanning(ts[|reqs|], root) && Benign(ts[|reqs|], root, req)
    ensures IsRun(root, branches, reqs + [req], ts + [Step(ts[|reqs|], root, branches, req)])
  {
    hide Spanning, Benign, Step;
  }

  /** The table once "a" has joined, and once "b" has as well */
  function OneJoined(): Table {
    [ClientPivot("r", 1, ["a"], 0), ClientPivot("a", 0, [], 1)]
  }

  function TwoJoined(): Table {
    [ClientPivot("r", 2, ["a", "b"], 0), ClientPivot("a", 0, [], 1), ClientPivot("b", 0, [], 1)]
  }

  lemma Attaches()
    ensures Attach([ClientPivot("r", 0, [], 0)], 0, "a") == OneJoined() && Attach(OneJoined(), 0, "b") == TwoJoined()
  {
    assert [] + ["a"] == ["a"] && ["a"] + ["b"] == ["a", "b"];
  }

  /** With a branch limit a short URL joins below the shallowest free node. */
  lemma JoinIs(t: Table, root: string, branches: nat, url: string)
    requires Spanning(t, root) && branches != 0 && |url| < 4
    ensures t != [] && Step(t, root, branches, Pivot(url)) == Attach(t, Shallowest(t, branches), url)
  {
    hide Spanning, Step, Attach, Shallowest;
    PivotIsJoin(t, root, branches, url);
  }

  lemma FirstJoin(branches: nat) returns (ts: seq<Table>)
    requires branches != 0
    ensures IsRun("r", branches, [Pivot("a")], ts) && |ts| == 2 && ts[1] == OneJoined() && Spanning(ts[1], "r")
  {
    hide Spanning, Shallowest, Step, Attach, OneJoined;
    var t0: Table := [ClientPivot("r", 0, [], 0)];
    LoneRoot("r");
    Attaches();
    JoinIs(t0, "r", branches, "a");
    RunMore("r", branches, [], [t0], Pivot("a"));
    ts := [t0, OneJoined()];
    assert [] + [Pivot("a")] == [Pivot("a")] && [t0] + [OneJoined()] == ts;
    RunsKeepTree("r", branches, [Pivot("a")], ts, 1);
  }

  /** A node that joins a second time */
  lemma SecondJoinBreaksTree(branches: nat) returns (ts: seq<Table>)
    requires branches != 0
    ensures IsRun("r", branches, [Pivot("a")], ts) && |ts| == 2 && Spanning(ts[1], "r")
    ensures !Spanning(Step(ts[1], "r", branches, Pivot("a")), "r")
  {
    ts := FirstJoin(branches);
    hide IsTree, Target, IsRun;
    assert ts[1][1].url == "a";
    StepKeepsTreeIff(ts[1], "r", branches, Pivot("a"));
  }

  lemma RootIsFree()
    ensures Shallowest(OneJoined(), 2) == 0 && !Known(OneJoined(), "b")
  {
    hide Shallowest;
    var t := OneJoined();
    assert t[0].DepthIfNotFull(2) == 0 && t[1].DepthIfNotFull(2) == 1;
  }

  lemma SecondJoin() returns (ts: seq<Table>)
    ensures IsRun("r", 2, [Pivot("a"), Pivot("b")], ts) && |ts| == 3 && ts[2] == TwoJoined() && Spanning(ts[2], "r")
  {
    hide Spanning, Shallowest, Step, Attach, OneJoined, TwoJoined, IsRun, Known;
    ts := FirstJoin(2);
    Attaches();
    RootIsFree();
    JoinIs(ts[1], "r", 2, "b");
    RunMore("r", 2, [Pivot("a")], ts, Pivot("b"));
    ts := ts + [TwoJoined()];
    assert [Pivot("a")] + [Pivot("b")] == [Pivot("a"), Pivot("b")];
    RunsKeepTree("r", 2, [Pivot("a"), Pivot("b")], ts, 2);
  }

  /** A node that reports the failure of a sibling */
  lemma SiblingReportBreaksTree() returns (ts: seq<Table>)
    ensures IsRun("r", 2, [Pivot("a"), Pivot("b")], ts) && |ts| == 3 && Spanning(ts[2], "r")
    ensures !Spanning(Step(ts[2], "r", 2, Remove("a", "b")), "r")
  {
    ts := SecondJoin();
    hide IsTree, Target, IsRun;
    assert ts[2][1].url == "a" && NodesOf(ts[2])["a"] == ts[2][1];
    StepKeepsTreeIff(ts[2], "r", 2, Remove("a", "b"));
  }

  /** With a limit of 2^32 + 1 the second node no longer joins the root, though the root has one child. */
  lemma LargeLimitMisplaces() returns (ts: seq<Table>)
    ensures IsRun("r", U32_MODULUS + 1, [Pivot("a")], ts) && |ts| == 2 && Spanning(ts[1], "r")
    ensures |ts[1][0].child| == 1 && Target(ts[1], "r", U32_MODULUS + 1) != 0
  {
    hide Spanning, Target, IsRun;
    ts := FirstJoin(U32_MODULUS + 1);
    RunsTruncateLimit("r", U32_MODULUS + 1, [Pivot("a")], ts, 1);
  }

  // ----- the exponent of the binomial search -----

  /** The most children the root can have while the table holds fewer than 2^32 nodes */
  const MAX_ORDER := 32

  ghost predicate RootNarrow(o: Overlay) {
    o.root in o.at && |o.at[o.root].child| <= MAX_ORDER
  }

  lemma JoinKeepsRootNarrow(t: Table, root: string, url: string)
    requires Spanning(t, root) && !Known(t, url) && |t| < Pow2(MAX_ORDER) && RootNarrow(TreeOf(t, root))
    ensures var o := TreeOf(t, root);
            RootNarrow(Overlay(root, AttachedAt(o.at, Place(o, o.at[root].refcount, root), url)))
  {
    hide Pow2, Place;
    var o := TreeOf(t, root);
    var r := o.at[root].refcount;
    assert SoundRecord(o.at[root], root);
    if Place(o, r, root) == root {
      TakesChildWhenFull(o, root, r);
      RootSize(t, root);
      Pow2Monotone(MAX_ORDER, r);
    }
  }

  lemma StepKeepsRootNarrow(t: Table, root: string, req: Request)
    requires Spanning(t, root) && Benign(t, root, req) && |t| < Pow2(MAX_ORDER) && RootNarrow(TreeOf(t, root))
    ensures Spanning(Step(t, root, 0, req), root) && RootNarrow(TreeOf(Step(t, root, 0, req), root))
  {
    hide Step, Pow2, Place, Target, AttachedAt;
    StepKeepsTreeIff(t, root, 0, req);
    StepEffect(t, root, 0, req);
    match EffectOf(t, root, req)
    case Nothing =>
    case Joins(url) =>
      JoinKeepsRootNarrow(t, root, url);
      TargetBinomial(t, root);
      AttachNodes(t, Target(t, root, 0), url);
    case Goes(url) =>
  }

  /** In every run without a branch limit whose tables so far had fewer than 2^32 nodes the search starts with an
      order of at most 32, so `2u32.pow` is only taken of exponents below 32. */
  lemma {:induction false} RunsKeepOrderSmall(root: string, reqs: seq<Request>, ts: seq<Table>, i: nat)
    requires IsRun(root, 0, reqs, ts) && i < |ts|
    requires forall j :: 0 <= j < i ==> |ts[j]| < Pow2(MAX_ORDER)
    ensures Spanning(ts[i], root) && TreeOf(ts[i], root).at[root].refcount <= MAX_ORDER
    ensures forall e: nat :: e < TreeOf(ts[i], root).at[root].refcount ==> Pow(2, e) == Pow2(e) < U32_MODULUS
  {
    hide IsTree, Pow;
    RunRootNarrow(root, reqs, ts, i);
    RootRecord(TreeOf(ts[i], root));
    forall e: nat | e < MAX_ORDER ensures Pow(2, e) == Pow2(e) < U32_MODULUS {
      Pow2IsPow(e);
      Pow2Monotone(e, 31);
      Pow2Is32();
    }
  }

  lemma RootRecord(o: Tree)
    ensures o.root in o.at && o.at[o.root].refcount == |o.at[o.root].child|
  {
    assert SoundRecord(o.at[o.root], o.root);
  }

  lemma Pow2Is32()
    ensures Pow2(31) == 0x8000_0000 && Pow2(32) == U32_MODULUS
  {
    assert Pow2(8) == 0x100;
    assert Pow2(16) == 0x1_0000;
    assert Pow2(24) == 0x100_0000;
  }

  lemma {:induction false} RunRootNarrow(root: string, reqs: seq<Request>, ts: seq<Table>, i: nat)
    requires IsRun(root, 0, reqs, ts) && i < |ts|
    requires forall j :: 0 <= j < i ==> |ts[j]| < Pow2(MAX_ORDER)
    ensures Spanning(ts[i], root) && RootNarrow(TreeOf(ts[i], root))
  {
    hide Spanning, Benign, Step, Pow2;
    if i == 0 {
      LoneRoot(root);
    } else {
      RunRootNarrow(root, reqs, ts, i - 1);
      RunStep(root, 0, reqs, ts, i - 1);
      StepKeepsRootNarrow(ts[i - 1], root, reqs[i - 1]);
    }
  }
}
