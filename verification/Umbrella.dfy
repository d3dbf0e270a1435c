/** The policy tree and the firewall together: every request admitted through resolution is
    counted at its node and at every node above it, and nowhere else. */
module Umbrella {
  import opened FirewallSpec
  import opened FirewallAdmission
  import opened FirewallRuns
  import opened Keys
  import Enforcer
  import Resolution
  import P = PolicySpec

  /** leaves[i] is the node of the key that ticket i was admitted for, "" for a client the
      policy does not govern. */
  datatype USys = USys(store: P.StoreVal, fw: Sys, leaves: seq<string>)

  datatype UOp =
    | Manage(op: P.Op)
    | Call(keySHA: string, runID: string, client: string, hash: string, usd: real, tok: int, remote: bool, now: nat)
    | Later(i: nat, settle: bool, usd: real, tok: int, now: nat)

  const UStart := USys(P.EmptyStore, Start, [])

  /** What the server asks of the firewall for a call; None when it denies the call itself. */
  function Ask(store: P.StoreVal, c: UOp): Option<FirewallRuns.Op>
    requires c.Call? && P.WellKeyed(store.nodes)
  {
    match Enforcer.Resolve(store, c.keySHA, c.runID)
    case Failed(_) => None
    case Governed(scopes, killedBy) =>
      if killedBy != "" then None else Some(Request(Chain(scopes), c.hash, c.usd, c.tok, c.remote, c.now))
    case Ungoverned => Some(Request(Flat(c.client, c.runID), c.hash, c.usd, c.tok, c.remote, c.now))
  }

  function LeafOf(store: P.StoreVal, c: UOp): string
    requires c.Call?
  {
    if c.keySHA in store.keys then store.keys[c.keySHA] else ""
  }

  function LaterOp(op: UOp): FirewallRuns.Op
    requires op.Later?
  {
    if op.settle then SettleOp(op.i, op.usd, op.tok, op.now) else ReleaseOp(op.i, op.now)
  }

  function UStep(cfg: Config, u: USys, op: UOp): USys
    requires P.WellKeyed(u.store.nodes)
  {
    match op
    case Manage(m) => u.(store := P.Apply(u.store, m).0)
    case Later(_, _, _, _, _) => u.(fw := Step(cfg, u.fw, LaterOp(op)))
    case Call(_, _, _, _, _, _, _, _) =>
      var ask := Ask(u.store, op);
      if ask.None? then u
      else
        var fw := Step(cfg, u.fw, ask.value);
        USys(u.store, fw, if |fw.tickets| > |u.fw.tickets| then u.leaves + [LeafOf(u.store, op)] else u.leaves)
  }

  function URun(cfg: Config, ops: seq<UOp>): (u: USys)
    ensures Resolution.Grown(u.store)
  {
    if ops == [] then UStart
    else
      var u := URun(cfg, ops[..|ops| - 1]);
      var u' := UStep(cfg, u, ops[|ops| - 1]);
      assert Resolution.Grown(u'.store) by {
        if ops[|ops| - 1].Manage? {
          Resolution.ApplyKeepsGrown(u.store, ops[|ops| - 1].op);
        }
      }
      u'
  }

  // ---- where a node sits ---------------------------------------------------------------------------------

  function Refs(path: seq<P.Node>): (r: seq<string>)
    ensures |r| == |path| && forall i :: 0 <= i < |r| ==> r[i] == P.RefOf(path[i])
  {
    seq(|path|, i requires 0 <= i < |path| => P.RefOf(path[i]))
  }

  /** The keys of a node and of everything above it, the node's own first. */
  function PathRefs(nodes: P.Nodes, leaf: string): seq<string>
    requires P.WellKeyed(nodes)
  {
    if leaf !in nodes then []
    else
      var up := P.Up(nodes, nodes[leaf]);
      if up.Ok? then Refs(up.value) else []
  }

  predicate AtOrUnder(nodes: P.Nodes, leaf: string, k: string)
    requires P.WellKeyed(nodes)
  {
    k in PathRefs(nodes, leaf)
  }

  ghost predicate SamePlaces(a: P.Nodes, b: P.Nodes) {
    forall r :: r in a ==> r in b && b[r] == a[r].(limits := b[r].limits, killed := b[r].killed)
  }

  lemma ApplyKeepsPlaces(st: P.StoreVal, op: P.Op)
    ensures SamePlaces(st.nodes, P.Apply(st, op).0.nodes)
  {
  }

  lemma {:induction false} WalkSamePlaces(a: P.Nodes, b: P.Nodes, n: P.Node, m: P.Node)
    requires P.WellKeyed(a) && P.WellKeyed(b) && SamePlaces(a, b)
    requires P.IsKind(n.kind) && m == n.(limits := m.limits, killed := m.killed)
    requires P.Up(a, n).Ok?
    ensures P.Up(b, m).Ok? && Refs(P.Up(a, n).value) == Refs(P.Up(b, m).value)
    decreases P.Rank(n.kind)
  {
    if n.parentID != "" {
      var p := P.ParentRef(n);
      P.ParentIsOneUp(a, n);
      WalkSamePlaces(a, b, a[p], b[p]);
      assert Refs(P.Up(a, n).value) == [P.RefOf(n)] + Refs(P.Up(a, a[p]).value);
      assert Refs(P.Up(b, m).value) == [P.RefOf(m)] + Refs(P.Up(b, b[p]).value);
    }
  }

  /** Managing the tree never moves a node that is in it. */
  lemma ManagingMovesNothing(st: P.StoreVal, op: P.Op, leaf: string)
    requires Resolution.Grown(st) && leaf in st.nodes
    ensures Resolution.Grown(P.Apply(st, op).0)
    ensures PathRefs(P.Apply(st, op).0.nodes, leaf) == PathRefs(st.nodes, leaf)
  {
    var st' := P.Apply(st, op).0;
    Resolution.ApplyKeepsGrown(st, op);
    ApplyKeepsPlaces(st, op);
    Resolution.GrownWalkReachesOrg(st, st.nodes[leaf]);
    WalkSamePlaces(st.nodes, st'.nodes, st.nodes[leaf], st'.nodes[leaf]);
  }

  // ---- the invariant --------------------------------------------------------------------------------------

  /** Node keys start with the first letter of a node type; no run or client key does. */
  predicate NodeKey(k: string) {
    k != "" && (k[0] == 'o' || k[0] == 't' || k[0] == 'a')
  }

  ghost predicate Placed(nodes: P.Nodes, keys: seq<string>, leaf: string)
    requires P.WellKeyed(nodes)
  {
    && (leaf == "" || leaf in nodes)
    && forall k {:trigger AtOrUnder(nodes, leaf, k)} :: NodeKey(k) ==>
         multiset(keys)[k] == if AtOrUnder(nodes, leaf, k) then 1 else 0
  }

  ghost predicate AllPlaced(nodes: P.Nodes, ts: seq<Ticket>, leaves: seq<string>)
    requires P.WellKeyed(nodes)
  {
    |leaves| == |ts| && forall i {:trigger ts[i]} :: 0 <= i < |ts| ==> Placed(nodes, ts[i].keys, leaves[i])
  }

  ghost predicate UInv(u: USys) {
    Resolution.Grown(u.store) && Inv(u.fw) && AllPlaced(u.store.nodes, u.fw.tickets, u.leaves)
  }

  lemma RefIsNodeKey(n: P.Node)
    requires P.IsKind(n.kind)
    ensures NodeKey(P.RefOf(n))
  {
    assert P.RefOf(n)[0] == n.kind[0];
  }

  lemma RunKeyIsNoNode(leafRef: string, keySHA: string, runID: string)
    ensures !NodeKey(P.RunKey(leafRef, keySHA, runID))
  {
    assert P.RunKey(leafRef, keySHA, runID)[0] == 'r';
  }

  lemma NodeScopeIndex(path: seq<P.Node>, ch: P.Chain, keySHA: string, runID: string, i: nat)
    requires path != [] && Resolution.Describes(ch, path, keySHA, runID) && i < |ch.scopes| && NodeKey(ch.scopes[i].key)
    ensures i < |path|
  {
    RunKeyIsNoNode(P.RefOf(path[0]), keySHA, runID);
    hide NodeKey, P.RunKey;
  }

  lemma DescribedKeysPlaced(ch: P.Chain, path: seq<P.Node>, keySHA: string, runID: string, k: string)
    requires path != [] && Resolution.Describes(ch, path, keySHA, runID) && NodeKey(k)
    ensures k in ScopeKeys(Enforcer.Translate(ch)) <==> k in Refs(path)
  {
    hide Resolution.Describes, NodeKey;
    if k in ScopeKeys(Enforcer.Translate(ch)) {
      ScopeOnPath(ch, path, keySHA, runID, k);
    }
    if k in Refs(path) {
      PathHasScope(ch, path, keySHA, runID, k);
    }
  }

  lemma ScopeOnPath(ch: P.Chain, path: seq<P.Node>, keySHA: string, runID: string, k: string)
    requires path != [] && Resolution.Describes(ch, path, keySHA, runID) && NodeKey(k) && k in ScopeKeys(Enforcer.Translate(ch))
    ensures k in Refs(path)
  {
    var keys, n := ScopeKeys(Enforcer.Translate(ch)), |path|;
    var i :| 0 <= i < |keys| && keys[i] == k;
    NodeScopeIndex(path, ch, keySHA, runID, i);
    assert Refs(path)[n - 1 - i] == ch.scopes[i].key;
  }

  lemma PathHasScope(ch: P.Chain, path: seq<P.Node>, keySHA: string, runID: string, k: string)
    requires path != [] && Resolution.Describes(ch, path, keySHA, runID) && k in Refs(path)
    ensures k in ScopeKeys(Enforcer.Translate(ch))
  {
    var n := |path|;
    var i :| 0 <= i < n && Refs(path)[i] == k;
    assert ScopeKeys(Enforcer.Translate(ch))[n - 1 - i] == ch.scopes[n - 1 - i].key;
  }

  /** The node keys of a resolved chain are those of the key's node and its ancestors. */
  lemma ResolvedKeysPlaced(st: P.StoreVal, keySHA: string, runID: string, k: string)
    requires P.WellKeyed(st.nodes) && P.Resolve(st, keySHA, runID).Ok? && NodeKey(k)
    ensures k in ScopeKeys(Enforcer.Translate(P.Resolve(st, keySHA, runID).value)) <==>
            AtOrUnder(st.nodes, st.keys[keySHA], k)
  {
    var path := Resolution.ResolvedPath(st, keySHA, runID);
    DescribedKeysPlaced(P.Resolve(st, keySHA, runID).value, path, keySHA, runID, k);
    assert Refs(path) == PathRefs(st.nodes, st.keys[keySHA]);
  }

  lemma ChainTicketPlaced(st: P.StoreVal, keySHA: string, runID: string)
    requires P.WellKeyed(st.nodes) && P.Resolve(st, keySHA, runID).Ok?
    ensures Placed(st.nodes, ScopeKeys(Enforcer.Translate(P.Resolve(st, keySHA, runID).value)), st.keys[keySHA])
  {
    var ch := P.Resolve(st, keySHA, runID).value;
    var keys := ScopeKeys(Enforcer.Translate(ch));
    Resolution.ResolvedKeysDistinct(st, keySHA, runID);
    assert forall i :: 0 <= i < |keys| ==> keys[i] == ch.scopes[i].key;
    forall k {:trigger AtOrUnder(st.nodes, st.keys[keySHA], k)} | NodeKey(k)
      ensures multiset(keys)[k] == if AtOrUnder(st.nodes, st.keys[keySHA], k) then 1 else 0
    {
      ResolvedKeysPlaced(st, keySHA, runID, k);
      OccursOnce(keys, k);
    }
  }

  lemma FlatTicketPlaced(nodes: P.Nodes, cfg: Config, client: string, runID: string)
    requires P.WellKeyed(nodes) && "" !in nodes
    ensures Placed(nodes, ScopeKeys(FlatScopes(cfg, client, runID)), "")
  {
    var keys := ScopeKeys(FlatScopes(cfg, client, runID));
    assert forall i :: 0 <= i < |keys| ==> keys[i][0] == 'k' || keys[i][0] == 'r';
    assert forall k :: NodeKey(k) ==> k !in keys;
  }

  lemma AskedKeysPlaced(cfg: Config, st: P.StoreVal, op: UOp)
    requires Resolution.Grown(st) && op.Call? && Ask(st, op).Some?
    ensures Ask(st, op).value.Request?
    ensures Placed(st.nodes, ScopeKeys(TargetScopes(cfg, Ask(st, op).value.target)), LeafOf(st, op))
  {
    hide Placed;
    if Ask(st, op).value.target.Chain? {
      ChainTicketPlaced(st, op.keySHA, op.runID);
    } else {
      FlatTicketPlaced(st.nodes, cfg, op.client, op.runID);
    }
  }

  lemma CallKeepsPlaces(cfg: Config, u: USys, op: UOp)
    requires UInv(u) && op.Call? && cfg.enabled
    ensures AllPlaced(u.store.nodes, UStep(cfg, u, op).fw.tickets, UStep(cfg, u, op).leaves)
  {
    var ask := Ask(u.store, op);
    if ask.Some? {
      AskedKeysPlaced(cfg, u.store, op);
      var r := ask.value;
      EnterTicket(u.fw.fw, cfg, r.target, r.hash, r.usd, r.tok, r.remote, r.now);
    }
  }

  lemma ManageKeepsPlaces(cfg: Config, u: USys, op: UOp)
    requires UInv(u) && op.Manage?
    ensures Resolution.Grown(UStep(cfg, u, op).store)
    ensures AllPlaced(UStep(cfg, u, op).store.nodes, u.fw.tickets, u.leaves)
  {
    var st, st' := u.store, P.Apply(u.store, op.op).0;
    Resolution.ApplyKeepsGrown(st, op.op);
    forall i {:trigger u.fw.tickets[i]} | 0 <= i < |u.fw.tickets|
      ensures Placed(st'.nodes, u.fw.tickets[i].keys, u.leaves[i])
    {
      var leaf := u.leaves[i];
      assert Placed(st.nodes, u.fw.tickets[i].keys, leaf);
      if leaf != "" {
        ManagingMovesNothing(st, op.op, leaf);
        ApplyKeepsPlaces(st, op.op);
        assert forall k :: AtOrUnder(st'.nodes, leaf, k) == AtOrUnder(st.nodes, leaf, k);
      } else {
        assert forall k :: AtOrUnder(st'.nodes, leaf, k) == AtOrUnder(st.nodes, leaf, k);
      }
    }
  }

  lemma UStepKeepsInv(cfg: Config, u: USys, op: UOp)
    requires UInv(u) && cfg.enabled && (op.Later? ==> op.usd >= 0.0)
    ensures UInv(UStep(cfg, u, op))
  {
    match op
    case Manage(_) => ManageKeepsPlaces(cfg, u, op);
    case Call(_, _, _, _, _, _, _, _) =>
      CallKeepsPlaces(cfg, u, op);
      var ask := Ask(u.store, op);
      if ask.Some? {
        StepKeepsInv(cfg, u.fw, ask.value);
      }
    case Later(_, _, _, _, _) =>
      StepKeepsInv(cfg, u.fw, LaterOp(op));
      assert forall i :: 0 <= i < |u.fw.tickets| ==> UStep(cfg, u, op).fw.tickets[i].keys == u.fw.tickets[i].keys;
  }

  ghost predicate ActualsOK(ops: seq<UOp>) {
    forall i :: 0 <= i < |ops| && ops[i].Later? ==> ops[i].usd >= 0.0
  }

  lemma {:induction false} UInvHolds(cfg: Config, ops: seq<UOp>)
    requires cfg.enabled && ActualsOK(ops)
    ensures UInv(URun(cfg, ops))
  {
    if ops == [] {
      AccountingExact(cfg, []);
    } else {
      UInvHolds(cfg, ops[..|ops| - 1]);
      UStepKeepsInv(cfg, URun(cfg, ops[..|ops| - 1]), ops[|ops| - 1]);
    }
  }
}
