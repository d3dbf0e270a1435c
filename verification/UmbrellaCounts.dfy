/** Conservation over the policy tree, in every reachable state. */
module UmbrellaCounts {
  import opened FirewallSpec
  import opened FirewallRuns
  import opened FirewallBounds
  import opened Umbrella
  import opened Keys
  import Enforcer
  import Resolution
  import P = PolicySpec

  // ---- a node's count is the live requests of its subtree -----------------------------------------------

  /** Unreleased tickets of keys whose node is at k or under it. */
  function LiveUnder(nodes: P.Nodes, ts: seq<Ticket>, leaves: seq<string>, k: string): nat
    requires P.WellKeyed(nodes) && |ts| == |leaves|
  {
    if ts == [] then 0
    else
      var n := |ts| - 1;
      LiveUnder(nodes, ts[..n], leaves[..n], k) + if !ts[n].released && AtOrUnder(nodes, leaves[n], k) then 1 else 0
  }

  lemma {:induction false} HoldsAreLiveUnder(nodes: P.Nodes, ts: seq<Ticket>, leaves: seq<string>, k: string)
    requires P.WellKeyed(nodes) && AllPlaced(nodes, ts, leaves) && NodeKey(k)
    ensures SumOf(HeldOn(k), ts) == LiveUnder(nodes, ts, leaves, k) as real
  {
    if ts != [] {
      var n := |ts| - 1;
      assert Placed(nodes, ts[n].keys, leaves[n]);
      assert AllPlaced(nodes, ts[..n], leaves[..n]) by {
        forall i | 0 <= i < n
          ensures Placed(nodes, ts[..n][i].keys, leaves[..n][i])
        {
          assert Placed(nodes, ts[i].keys, leaves[i]);
        }
      }
      HoldsAreLiveUnder(nodes, ts[..n], leaves[..n], k);
    }
  }

  /** Each node's in-flight count is the number of live requests from keys at or under it. */
  lemma NodeCountsItsSubtree(cfg: Config, ops: seq<UOp>, k: string)
    requires cfg.enabled && ActualsOK(ops) && NodeKey(k)
    ensures var u := URun(cfg, ops);
            && |u.fw.tickets| == |u.leaves|
            && Inflight(u.fw.fw, k) == LiveUnder(u.store.nodes, u.fw.tickets, u.leaves, k)
  {
    var u := URun(cfg, ops);
    UInvHolds(cfg, ops);
    HoldsAreLiveUnder(u.store.nodes, u.fw.tickets, u.leaves, k);
    assert Inflight(u.fw.fw, k) as real == SumOf(HeldOn(k), u.fw.tickets);
  }

  // ---- parents and children --------------------------------------------------------------------------------

  predicate IsChild(nodes: P.Nodes, c: string, p: string) {
    c in nodes && nodes[c].parentID != "" && P.ParentRef(nodes[c]) == p
  }

  /** kids lists children of p, none twice. */
  ghost predicate Kids(nodes: P.Nodes, kids: seq<string>, p: string) {
    Distinct(kids) && forall i :: 0 <= i < |kids| ==> IsChild(nodes, kids[i], p)
  }

  ghost predicate AllKids(nodes: P.Nodes, kids: seq<string>, p: string) {
    Kids(nodes, kids, p) && forall c :: IsChild(nodes, c, p) ==> c in kids
  }

  function SumUnder(nodes: P.Nodes, ts: seq<Ticket>, leaves: seq<string>, kids: seq<string>): nat
    requires P.WellKeyed(nodes) && |ts| == |leaves|
  {
    if kids == [] then 0
    else SumUnder(nodes, ts, leaves, kids[..|kids| - 1]) + LiveUnder(nodes, ts, leaves, kids[|kids| - 1])
  }

  /** Unreleased tickets of keys on node k itself. */
  function LiveAt(ts: seq<Ticket>, leaves: seq<string>, k: string): nat
    requires |ts| == |leaves|
  {
    if ts == [] then 0
    else
      var n := |ts| - 1;
      LiveAt(ts[..n], leaves[..n], k) + if !ts[n].released && leaves[n] == k then 1 else 0
  }

  /** How many of kids have leaf at or under them. */
  function Above(nodes: P.Nodes, leaf: string, kids: seq<string>): nat
    requires P.WellKeyed(nodes)
  {
    if kids == [] then 0
    else Above(nodes, leaf, kids[..|kids| - 1]) + if AtOrUnder(nodes, leaf, kids[|kids| - 1]) then 1 else 0
  }

  /** If the only one of kids above a leaf can be c, the count says whether c is among them. */
  lemma {:induction false} AboveOne(nodes: P.Nodes, leaf: string, kids: seq<string>, c: string)
    requires P.WellKeyed(nodes) && Distinct(kids)
    requires forall i :: 0 <= i < |kids| && AtOrUnder(nodes, leaf, kids[i]) ==> kids[i] == c
    ensures Above(nodes, leaf, kids) == if c in kids && AtOrUnder(nodes, leaf, c) then 1 else 0
  {
    if kids != [] {
      var n := |kids| - 1;
      assert kids == kids[..n] + [kids[n]];
      AboveOne(nodes, leaf, kids[..n], c);
    }
  }

  /** The path of a leaf: distinct records, each one's parent next, the last one an org. */
  lemma PathFacts(st: P.StoreVal, leaf: string)
    requires Resolution.Grown(st) && leaf in st.nodes
    ensures var r := PathRefs(st.nodes, leaf);
            && r != [] && r[0] == leaf
            && Distinct(r)
            && (forall i :: 0 <= i < |r| ==> r[i] in st.nodes)
            && (forall i {:trigger st.nodes[r[i]]} :: 0 <= i < |r| ==>
                  if i + 1 < |r| then IsChild(st.nodes, r[i], r[i + 1]) else st.nodes[r[i]].parentID == "")
  {
    var nodes, n := st.nodes, st.nodes[leaf];
    Resolution.GrownWalkReachesOrg(st, n);
    var path := P.Up(nodes, n).value;
    Resolution.UpFindsAncestry(nodes, n, path);
    var r := PathRefs(nodes, leaf);
    forall i | 0 <= i < |r|
      ensures r[i] in nodes && nodes[r[i]] == path[i]
    {
      Enforcer.NodeKeyShort(st, path, i);
    }
    forall i {:trigger nodes[r[i]]} | 0 <= i < |r|
      ensures if i + 1 < |r| then IsChild(nodes, r[i], r[i + 1]) else nodes[r[i]].parentID == ""
    {
      if i + 1 < |r| {
        assert Resolution.LinkedUp(nodes, path, i);
        assert nodes[r[i + 1]] == path[i + 1];
      }
    }
    forall i, j | 0 <= i < j < |r|
      ensures r[i] != r[j]
    {
      Resolution.AncestryRefsDiffer(nodes, path, i, j);
    }
  }

  /** A child of p on the path of a leaf sits just below p. */
  lemma ChildOnPath(st: P.StoreVal, leaf: string, p: string, c: string) returns (j: nat)
    requires Resolution.Grown(st) && leaf in st.nodes && IsChild(st.nodes, c, p) && AtOrUnder(st.nodes, leaf, c)
    ensures var r := PathRefs(st.nodes, leaf); 0 < j < |r| && r[j] == p && r[j - 1] == c
  {
    var r := PathRefs(st.nodes, leaf);
    PathFacts(st, leaf);
    var i :| 0 <= i < |r| && r[i] == c;
    assert st.nodes[r[i]].parentID != "";
    j := i + 1;
  }

  /** A leaf under p is at p or under exactly one child of p. */
  lemma LeafSplits(st: P.StoreVal, leaf: string, p: string, kids: seq<string>)
    requires Resolution.Grown(st) && leaf in st.nodes && Kids(st.nodes, kids, p)
    ensures var here := if leaf == p then 1 else 0;
            var under := if AtOrUnder(st.nodes, leaf, p) then 1 else 0;
            && here + Above(st.nodes, leaf, kids) <= under
            && (AllKids(st.nodes, kids, p) ==> here + Above(st.nodes, leaf, kids) == under)
  {
    hide PathRefs, Above, P.WellKeyed;
    var nodes, r := st.nodes, PathRefs(st.nodes, leaf);
    PathFacts(st, leaf);
    if p in r {
      var j :| 0 <= j < |r| && r[j] == p;
      var c := if j > 0 then r[j - 1] else "";
      forall i | 0 <= i < |kids| && AtOrUnder(nodes, leaf, kids[i])
        ensures j > 0 && kids[i] == c
      {
        var m := ChildOnPath(st, leaf, p, kids[i]);
      }
      AboveOne(nodes, leaf, kids, c);
      if j > 0 {
        assert nodes[r[j - 1]].parentID == nodes[r[j - 1]].parentID;
        assert IsChild(nodes, c, p);
      }
    } else {
      forall i | 0 <= i < |kids| && AtOrUnder(nodes, leaf, kids[i])
        ensures false
      {
        var m := ChildOnPath(st, leaf, p, kids[i]);
      }
      AboveOne(nodes, leaf, kids, "");
    }
  }

  lemma UngovernedSplits(nodes: P.Nodes, p: string, kids: seq<string>)
    requires P.WellKeyed(nodes) && "" !in nodes
    ensures Above(nodes, "", kids) == 0 && !AtOrUnder(nodes, "", p)
  {
    if kids != [] {
      UngovernedSplits(nodes, p, kids[..|kids| - 1]);
    }
  }

  lemma {:induction false} SumUnderLast(nodes: P.Nodes, ts: seq<Ticket>, leaves: seq<string>, kids: seq<string>)
    requires P.WellKeyed(nodes) && |ts| == |leaves| > 0
    ensures var n := |ts| - 1;
            SumUnder(nodes, ts, leaves, kids) ==
            SumUnder(nodes, ts[..n], leaves[..n], kids) + if ts[n].released then 0 else Above(nodes, leaves[n], kids)
  {
    if kids != [] {
      SumUnderLast(nodes, ts, leaves, kids[..|kids| - 1]);
    }
  }

  lemma {:induction false} SubtreesAddUp(st: P.StoreVal, ts: seq<Ticket>, leaves: seq<string>, p: string, kids: seq<string>)
    requires Resolution.Grown(st) && |ts| == |leaves| && p != "" && Kids(st.nodes, kids, p)
    requires forall i :: 0 <= i < |leaves| ==> leaves[i] == "" || leaves[i] in st.nodes
    ensures var parts := LiveAt(ts, leaves, p) + SumUnder(st.nodes, ts, leaves, kids);
            && parts <= LiveUnder(st.nodes, ts, leaves, p)
            && (AllKids(st.nodes, kids, p) ==> parts == LiveUnder(st.nodes, ts, leaves, p))
  {
    if ts == [] {
      SumUnderNothing(st.nodes, kids);
    } else {
      var n := |ts| - 1;
      SubtreesAddUp(st, ts[..n], leaves[..n], p, kids);
      SumUnderLast(st.nodes, ts, leaves, kids);
      if leaves[n] == "" {
        UngovernedSplits(st.nodes, p, kids);
      } else {
        LeafSplits(st, leaves[n], p, kids);
      }
    }
  }

  lemma {:induction false} SumUnderNothing(nodes: P.Nodes, kids: seq<string>)
    requires P.WellKeyed(nodes)
    ensures SumUnder(nodes, [], [], kids) == 0
  {
    if kids != [] {
      SumUnderNothing(nodes, kids[..|kids| - 1]);
    }
  }

  function SumInflight(f: Fw, ks: seq<string>): int {
    if ks == [] then 0 else SumInflight(f, ks[..|ks| - 1]) + Inflight(f, ks[|ks| - 1])
  }

  lemma {:induction false} SumInflightIsSumUnder(u: USys, kids: seq<string>)
    requires UInv(u) && forall i :: 0 <= i < |kids| ==> kids[i] in u.store.nodes
    ensures SumInflight(u.fw.fw, kids) == SumUnder(u.store.nodes, u.fw.tickets, u.leaves, kids)
  {
    if kids != [] {
      var n := |kids| - 1;
      SumInflightIsSumUnder(u, kids[..n]);
      RefIsNodeKey(u.store.nodes[kids[n]]);
      HoldsAreLiveUnder(u.store.nodes, u.fw.tickets, u.leaves, kids[n]);
      assert Inflight(u.fw.fw, kids[n]) as real == SumOf(HeldOn(kids[n]), u.fw.tickets);
    }
  }

  /** A node's count is at least the sum of the counts of any of its children; it is the sum
      over all of them plus the live requests of the keys issued on the node itself. */
  lemma ParentCountsItsChildren(cfg: Config, ops: seq<UOp>, p: string, kids: seq<string>)
    requires cfg.enabled && ActualsOK(ops)
    requires p in URun(cfg, ops).store.nodes && Kids(URun(cfg, ops).store.nodes, kids, p)
    ensures var u := URun(cfg, ops);
            && |u.fw.tickets| == |u.leaves|
            && SumInflight(u.fw.fw, kids) <= Inflight(u.fw.fw, p)
            && (AllKids(u.store.nodes, kids, p) ==>
                  Inflight(u.fw.fw, p) == SumInflight(u.fw.fw, kids) + LiveAt(u.fw.tickets, u.leaves, p))
  {
    var u := URun(cfg, ops);
    UInvHolds(cfg, ops);
    SumInflightIsSumUnder(u, kids);
    RefIsNodeKey(u.store.nodes[p]);
    NodeCountsItsSubtree(cfg, ops, p);
    forall i | 0 <= i < |u.leaves|
      ensures u.leaves[i] == "" || u.leaves[i] in u.store.nodes
    {
      assert Placed(u.store.nodes, u.fw.tickets[i].keys, u.leaves[i]);
    }
    SubtreesAddUp(u.store, u.fw.tickets, u.leaves, p, kids);
  }

  // ---- a node's own cap --------------------------------------------------------------------------------------

  ghost predicate CapIs(st: P.StoreVal, k: string, m: int) {
    k in st.nodes ==> st.nodes[k].limits.concurrent == m
  }

  lemma AskedConcurrency(cfg: Config, st: P.StoreVal, op: UOp, k: string, m: int)
    requires Resolution.Grown(st) && op.Call? && Ask(st, op).Some? && NodeKey(k) && CapIs(st, k, m)
    ensures Ask(st, op).value.Request? && FixedConcurrency(cfg, Ask(st, op).value.target, k, m)
  {
    var t := Ask(st, op).value.target;
    AskedKeysPlaced(cfg, st, op);
    assert AtOrUnder(st.nodes, LeafOf(st, op), k) || !AtOrUnder(st.nodes, LeafOf(st, op), k);
    forall sc | sc in TargetScopes(cfg, t) && sc.key == k
      ensures sc.limits.concurrent == m
    {
      if t.Chain? {
        ChainScopeIsNode(st, op.keySHA, op.runID, sc);
      } else {
        FlatScopesAreNoNodes(cfg, op.client, op.runID);
      }
    }
  }

  lemma FlatScopesAreNoNodes(cfg: Config, client: string, runID: string)
    ensures forall sc :: sc in FlatScopes(cfg, client, runID) ==> !NodeKey(sc.key)
  {
    forall i | 0 <= i < |FlatScopes(cfg, client, runID)|
      ensures !NodeKey(FlatScopes(cfg, client, runID)[i].key)
    {
      var key := FlatScopes(cfg, client, runID)[i].key;
      assert key[0] == 'k' || key[0] == 'r';
    }
  }

  lemma DescribedScopeIsNode(st: P.StoreVal, path: seq<P.Node>, ch: P.Chain, keySHA: string, runID: string, i: nat)
    requires Resolution.Grown(st) && Resolution.FullAncestry(st, keySHA, path)
    requires Resolution.Describes(ch, path, keySHA, runID) && i < |ch.scopes| && NodeKey(ch.scopes[i].key)
    ensures ch.scopes[i].key in st.nodes && ch.scopes[i].limits == st.nodes[ch.scopes[i].key].limits
  {
    assert P.RefOf(path[0]) in st.nodes && st.nodes[P.RefOf(path[0])] == path[0];
    hide Resolution.Grown;
    NodeScopeIndex(path, ch, keySHA, runID, i);
    var n := path[|path| - 1 - i];
    assert ch.scopes[i] == P.Scope(n.kind, P.RefOf(n), n.limits);
    Enforcer.NodeKeyShort(st, path, |path| - 1 - i);
  }

  lemma ChainScopeIsNode(st: P.StoreVal, keySHA: string, runID: string, sc: Scope)
    requires Resolution.Grown(st) && P.Resolve(st, keySHA, runID).Ok? && NodeKey(sc.key)
    requires sc in Enforcer.Translate(P.Resolve(st, keySHA, runID).value)
    ensures sc.key in st.nodes && sc.limits == Enforcer.TranslateLimits(st.nodes[sc.key].limits)
  {
    var ch := P.Resolve(st, keySHA, runID).value;
    var path := Resolution.ResolvedPath(st, keySHA, runID);
    var i :| 0 <= i < |ch.scopes| && Enforcer.Translate(ch)[i] == sc;
    DescribedScopeIsNode(st, path, ch, keySHA, runID, i);
  }

  /** In-flight requests of a whole subtree never exceed the cap fixed on its node. */
  lemma {:induction false} SubtreeWithinNodeCap(cfg: Config, ops: seq<UOp>, k: string, m: int)
    requires cfg.enabled && ActualsOK(ops) && NodeKey(k) && m > 0
    requires forall n :: 0 <= n <= |ops| ==> CapIs(URun(cfg, ops[..n]).store, k, m)
    ensures Inflight(URun(cfg, ops).fw.fw, k) <= m
  {
    if ops != [] {
      var pre, op := ops[..|ops| - 1], ops[|ops| - 1];
      forall n | 0 <= n <= |pre|
        ensures CapIs(URun(cfg, pre[..n]).store, k, m)
      {
        assert pre[..n] == ops[..n];
      }
      SubtreeWithinNodeCap(cfg, pre, k, m);
      UInvHolds(cfg, pre);
      var u := URun(cfg, pre);
      assert CapIs(URun(cfg, ops[..|pre|]).store, k, m);
      match op
      case Manage(_) =>
      case Call(_, _, _, _, _, _, _, _) =>
        if Ask(u.store, op).Some? {
          AskedConcurrency(cfg, u.store, op, k, m);
          StepConcurrency(cfg, u.fw, Ask(u.store, op).value, k, m);
        }
      case Later(_, _, _, _, _) => StepConcurrency(cfg, u.fw, LaterOp(op), k, m);
    }
  }
}
