/** What managing the policy tree does to the calls under it: a killed node stops them, caps and keys
    reach the firewall as they were set. */
module Breaker {
  import opened FirewallSpec
  import opened FirewallRuns
  import opened Umbrella
  import Enforcer
  import Resolution
  import P = PolicySpec

  // ---- a node and what is above it ----------------------------------------------------------------------------

  /** k is a node at or above the leaf, n what is stored of it. */
  ghost predicate Above(nodes: P.Nodes, leaf: string, k: string, n: P.Node)
    requires P.WellKeyed(nodes)
  {
    AtOrUnder(nodes, leaf, k) && k in nodes && nodes[k] == n
  }

  /** Some node at or above the leaf is killed. */
  ghost predicate KilledAbove(nodes: P.Nodes, leaf: string)
    requires P.WellKeyed(nodes)
  {
    exists k, n :: Above(nodes, leaf, k, n) && n.killed
  }

  /** cap is the smallest run cap set at or above the leaf, 0 when none is. */
  ghost predicate TightestAbove(nodes: P.Nodes, leaf: string, cap: real)
    requires P.WellKeyed(nodes)
  {
    && (forall k, n :: Above(nodes, leaf, k, n) && n.limits.usdPerRun != 0.0 ==> cap != 0.0 && cap <= n.limits.usdPerRun)
    && (cap != 0.0 ==> exists k, n :: Above(nodes, leaf, k, n) && n.limits.usdPerRun == cap)
  }

  /** The nodes above a leaf are the records of its path. */
  lemma PathIsAbove(st: P.StoreVal, leaf: string) returns (path: seq<P.Node>)
    requires Resolution.Grown(st) && leaf in st.nodes
    ensures P.Up(st.nodes, st.nodes[leaf]) == P.Ok(path) && path != [] && path[|path| - 1].kind == P.ORG
    ensures forall i {:trigger path[i]} :: 0 <= i < |path| ==> Above(st.nodes, leaf, P.RefOf(path[i]), path[i])
    ensures forall k, n {:trigger Above(st.nodes, leaf, k, n)} :: Above(st.nodes, leaf, k, n) ==>
              exists i :: 0 <= i < |path| && path[i] == n && P.RefOf(path[i]) == k
  {
    var n := st.nodes[leaf];
    Resolution.GrownWalkReachesOrg(st, n);
    path := P.Up(st.nodes, n).value;
    Resolution.UpFindsAncestry(st.nodes, n, path);
    forall i | 0 <= i < |path|
      ensures Above(st.nodes, leaf, P.RefOf(path[i]), path[i])
    {
      Enforcer.NodeKeyShort(st, path, i);
      assert Refs(path)[i] == P.RefOf(path[i]);
    }
    forall k, m | Above(st.nodes, leaf, k, m)
      ensures exists i :: 0 <= i < |path| && path[i] == m && P.RefOf(path[i]) == k
    {
      var i :| 0 <= i < |path| && Refs(path)[i] == k;
      Enforcer.NodeKeyShort(st, path, i);
    }
  }

  // ---- what is asked of the firewall -----------------------------------------------------------------------------

  predicate BadRun(c: UOp)
    requires c.Call?
  {
    c.runID != "" && !P.ValidID(c.runID)
  }

  /** On a store reached through the API a governed call resolves unless its run id is malformed. */
  lemma GovernedResolves(st: P.StoreVal, c: UOp) returns (path: seq<P.Node>)
    requires Resolution.Grown(st) && c.Call? && c.keySHA in st.keys && !BadRun(c)
    ensures P.Resolve(st, c.keySHA, c.runID).Ok? && path != []
    ensures Resolution.Describes(P.Resolve(st, c.keySHA, c.runID).value, path, c.keySHA, c.runID)
    ensures P.Up(st.nodes, st.nodes[st.keys[c.keySHA]]) == P.Ok(path)
  {
    var leaf := st.keys[c.keySHA];
    path := PathIsAbove(st, leaf);
    Resolution.ChainDescribesLineage(path, c.keySHA, c.runID);
  }

  /** A call is denied before the firewall exactly when its run id is malformed, or its key is governed
      and some node at or above the key's is killed. */
  lemma DeniedBeforeIff(st: P.StoreVal, c: UOp)
    requires Resolution.Grown(st) && c.Call?
    ensures Ask(st, c).None? <==> BadRun(c) || (c.keySHA in st.keys && KilledAbove(st.nodes, st.keys[c.keySHA]))
  {
    if c.keySHA in st.keys && !BadRun(c) {
      var leaf := st.keys[c.keySHA];
      var path := GovernedResolves(st, c);
      var same := PathIsAbove(st, leaf);
      assert path == same;
      var killer := P.Resolve(st, c.keySHA, c.runID).value.killedBy;
      assert Resolution.IsKilledNearestRoot(path, killer);
      if killer == "" {
        assert forall i :: 0 <= i < |path| ==> !path[i].killed;
      } else {
        var j :| 0 <= j < |path| && path[j].killed;
        assert Above(st.nodes, leaf, P.RefOf(path[j]), path[j]);
      }
    }
  }

  /** In every reachable state, a call under a killed node leaves the firewall, every ticket and the
      tree as they were. */
  lemma BreakerHolds(cfg: Config, ops: seq<UOp>, c: UOp)
    requires c.Call?
    requires var st := URun(cfg, ops).store; c.keySHA in st.keys && KilledAbove(st.nodes, st.keys[c.keySHA])
    ensures UStep(cfg, URun(cfg, ops), c) == URun(cfg, ops)
  {
    DeniedBeforeIff(URun(cfg, ops).store, c);
  }

  /** A policy node's caps as the firewall takes them. */
  predicate SameCaps(l: P.Limits, m: Limits) {
    m.usdPerMin == l.usdPerMin && m.tokPerMin == l.tokPerMin && m.concurrent == l.concurrent && m.usdPerRun == l.usdPerRun
  }

  /** The scope a node contributes to a chain. */
  predicate ScopeOf(sc: Scope, k: string, n: P.Node) {
    sc.name == n.kind && sc.key == k && SameCaps(n.limits, sc.limits)
  }

  ghost predicate CarriesTree(scopes: seq<Scope>, nodes: P.Nodes, leaf: string)
    requires P.WellKeyed(nodes)
  {
    && (forall sc {:trigger sc in scopes} :: sc in scopes && sc.name != "run" ==> exists n :: Above(nodes, leaf, sc.key, n) && ScopeOf(sc, sc.key, n))
    && (forall k, n {:trigger Above(nodes, leaf, k, n)} :: Above(nodes, leaf, k, n) ==> exists sc :: sc in scopes && ScopeOf(sc, k, n))
  }

  /** The run scope carries nothing but the tightest run cap above. */
  ghost predicate CarriesRun(scopes: seq<Scope>, nodes: P.Nodes, c: UOp, leaf: string)
    requires P.WellKeyed(nodes) && c.Call?
  {
    if c.runID == "" then forall sc :: sc in scopes ==> sc.name != "run"
    else exists sc :: sc in scopes && sc.name == "run" && sc.key == P.RunKey(leaf, c.keySHA, c.runID)
                      && sc.limits == Limits(0.0, 0, 0, sc.limits.usdPerRun) && TightestAbove(nodes, leaf, sc.limits.usdPerRun)
  }

  /** A governed call asks the firewall for the node's own caps and those of every node above it, each
      as it is stored, and for its run with the tightest run cap among them. */
  lemma AskedChain(st: P.StoreVal, c: UOp)
    requires Resolution.Grown(st) && c.Call? && c.keySHA in st.keys && Ask(st, c).Some?
    ensures var leaf, r := st.keys[c.keySHA], Ask(st, c).value;
            && r.Request? && r.target.Chain?
            && CarriesTree(r.target.scopes, st.nodes, leaf) && CarriesRun(r.target.scopes, st.nodes, c, leaf)
            && r == Request(r.target, c.hash, c.usd, c.tok, c.remote, c.now)
  {
    hide P.Resolve, CarriesTree, CarriesRun, Resolution.Describes, P.Up, Enforcer.Translate;
    var leaf := st.keys[c.keySHA];
    DeniedBeforeIff(st, c);
    var path := GovernedResolves(st, c);
    var ch := P.Resolve(st, c.keySHA, c.runID).value;
    TreeCarried(st, leaf, path, ch, c.keySHA, c.runID);
    RunCarried(st, leaf, path, ch, c);
  }

  lemma ScopeAt(path: seq<P.Node>, ch: P.Chain, keySHA: string, runID: string, i: nat)
    requires path != [] && Resolution.Describes(ch, path, keySHA, runID) && i < |path|
    ensures var scopes := Enforcer.Translate(ch);
            |scopes| >= |path| && ScopeOf(scopes[|path| - 1 - i], P.RefOf(path[i]), path[i]) && scopes[|path| - 1 - i] in scopes
  {
    assert ch.scopes[|path| - 1 - i] == P.Scope(path[i].kind, P.RefOf(path[i]), path[i].limits);
  }

  lemma TreeCarried(st: P.StoreVal, leaf: string, path: seq<P.Node>, ch: P.Chain, keySHA: string, runID: string)
    requires Resolution.Grown(st) && leaf in st.nodes && P.Up(st.nodes, st.nodes[leaf]) == P.Ok(path) && path != []
    requires Resolution.Describes(ch, path, keySHA, runID)
    ensures CarriesTree(Enforcer.Translate(ch), st.nodes, leaf)
  {
    hide Above, ScopeOf, P.Up, Resolution.Describes, Enforcer.Translate;
    var scopes := Enforcer.Translate(ch);
    forall sc {:trigger sc in scopes} | sc in scopes && sc.name != "run"
      ensures exists n :: Above(st.nodes, leaf, sc.key, n) && ScopeOf(sc, sc.key, n)
    {
      ScopeIsNode(st, leaf, path, ch, keySHA, runID, sc);
    }
    forall k, n {:trigger Above(st.nodes, leaf, k, n)} | Above(st.nodes, leaf, k, n)
      ensures exists sc :: sc in scopes && ScopeOf(sc, k, n)
    {
      NodeHasScope(st, leaf, path, ch, keySHA, runID, k, n);
    }
  }

  lemma ScopeIsNode(st: P.StoreVal, leaf: string, path: seq<P.Node>, ch: P.Chain, keySHA: string, runID: string, sc: Scope)
    requires Resolution.Grown(st) && leaf in st.nodes && P.Up(st.nodes, st.nodes[leaf]) == P.Ok(path) && path != []
    requires Resolution.Describes(ch, path, keySHA, runID) && sc in Enforcer.Translate(ch) && sc.name != "run"
    ensures exists n :: Above(st.nodes, leaf, sc.key, n) && ScopeOf(sc, sc.key, n)
  {
    hide Above, P.Up;
    var scopes := Enforcer.Translate(ch);
    var same := PathIsAbove(st, leaf);
    var j :| 0 <= j < |scopes| && scopes[j] == sc;
    var i := |path| - 1 - j;
    ScopeAt(path, ch, keySHA, runID, i);
    assert Above(st.nodes, leaf, P.RefOf(path[i]), path[i]);
  }

  lemma NodeHasScope(st: P.StoreVal, leaf: string, path: seq<P.Node>, ch: P.Chain, keySHA: string, runID: string, k: string, n: P.Node)
    requires Resolution.Grown(st) && leaf in st.nodes && P.Up(st.nodes, st.nodes[leaf]) == P.Ok(path) && path != []
    requires Resolution.Describes(ch, path, keySHA, runID) && Above(st.nodes, leaf, k, n)
    ensures exists sc :: sc in Enforcer.Translate(ch) && ScopeOf(sc, k, n)
  {
    hide Above, P.Up, Resolution.Describes, Enforcer.Translate, ScopeOf;
    var same := PathIsAbove(st, leaf);
    var i :| 0 <= i < |path| && path[i] == n && P.RefOf(path[i]) == k;
    ScopeAt(path, ch, keySHA, runID, i);
  }

  lemma RunCarried(st: P.StoreVal, leaf: string, path: seq<P.Node>, ch: P.Chain, c: UOp)
    requires Resolution.Grown(st) && leaf in st.nodes && P.Up(st.nodes, st.nodes[leaf]) == P.Ok(path) && path != []
    requires c.Call? && Resolution.Describes(ch, path, c.keySHA, c.runID)
    ensures CarriesRun(Enforcer.Translate(ch), st.nodes, c, leaf)
  {
    hide Above, P.Up, P.RunKey;
    var scopes, m := Enforcer.Translate(ch), |path|;
    var same := PathIsAbove(st, leaf);
    if c.runID == "" {
      forall sc | sc in scopes
        ensures sc.name != "run"
      {
        var j :| 0 <= j < |scopes| && scopes[j] == sc;
        AboveIsKind(st.nodes, leaf, P.RefOf(path[m - 1 - j]), path[m - 1 - j]);
      }
    } else {
      var sc := scopes[m];
      PathStarts(st.nodes, leaf, path);
      assert Resolution.IsTightest(path, ch.scopes[m].limits.usdPerRun);
      TightestIsAbove(st, leaf, path, ch.scopes[m].limits.usdPerRun);
      assert sc in scopes && ch.scopes[m].limits.(usdPerRun := 0.0) == P.NoLimits;
    }
  }

  lemma AboveIsKind(nodes: P.Nodes, leaf: string, k: string, n: P.Node)
    requires P.WellKeyed(nodes) && Above(nodes, leaf, k, n)
    ensures P.IsKind(n.kind) && n.kind != "run"
  {
  }

  lemma PathStarts(nodes: P.Nodes, leaf: string, path: seq<P.Node>)
    requires P.WellKeyed(nodes) && leaf in nodes && P.Up(nodes, nodes[leaf]) == P.Ok(path) && path != []
    ensures P.RefOf(path[0]) == leaf
  {
  }

  lemma TightestIsAbove(st: P.StoreVal, leaf: string, path: seq<P.Node>, cap: real)
    requires Resolution.Grown(st) && leaf in st.nodes && P.Up(st.nodes, st.nodes[leaf]) == P.Ok(path)
    requires Resolution.IsTightest(path, cap)
    ensures TightestAbove(st.nodes, leaf, cap)
  {
    var same := PathIsAbove(st, leaf);
    forall k, n | Above(st.nodes, leaf, k, n) && n.limits.usdPerRun != 0.0
      ensures cap != 0.0 && cap <= n.limits.usdPerRun
    {
      var i :| 0 <= i < |path| && path[i] == n && P.RefOf(path[i]) == k;
    }
    if cap != 0.0 {
      var i :| 0 <= i < |path| && path[i].limits.usdPerRun == cap;
      assert Above(st.nodes, leaf, P.RefOf(path[i]), path[i]);
    }
  }

  /** A call whose key the policy does not know asks for its client's own scopes. */
  lemma AskedFlat(st: P.StoreVal, c: UOp)
    requires Resolution.Grown(st) && c.Call? && c.keySHA !in st.keys && !BadRun(c)
    ensures Ask(st, c) == Some(Request(Flat(c.client, c.runID), c.hash, c.usd, c.tok, c.remote, c.now))
  {
  }

  // ---- managing the tree ------------------------------------------------------------------------------------------

  /** 1 to 128 letters, digits, dots, underscores and dashes. */
  predicate SafeID(id: string) {
    1 <= |id| <= 128 && forall i :: 0 <= i < |id| ==> Safe(id[i])
  }

  predicate Safe(c: char) {
    var n := c as int;
    65 <= n <= 90 || 97 <= n <= 122 || 48 <= n <= 57 || n == 46 || n == 95 || n == 45
  }

  predicate NoNegative(l: P.Limits) {
    !(l.usdPerMin < 0.0 || l.tokPerMin < 0 || l.concurrent < 0 || l.usdPerDay < 0.0 || l.usdPerMonth < 0.0 || l.usdPerRun < 0.0)
  }

  function Key(kind: string, id: string): string {
    kind + ":" + id
  }

  /** What becomes of a management call: bad ids are reported first, then negative caps, then a missing
      node or parent, then a name already taken; nothing else is refused. */
  function Verdict(st: P.StoreVal, op: P.Op): P.Outcome {
    match op
    case CreateOrg(id, _, l) =>
      if !SafeID(id) then P.Refused(P.BadID) else if !NoNegative(l) then P.Refused(P.BadLimits)
      else if Key("org", id) in st.nodes then P.Refused(P.Exists) else P.Done
    case CreateTeam(id, _, org, l) =>
      if !SafeID(id) then P.Refused(P.BadID) else if !NoNegative(l) then P.Refused(P.BadLimits)
      else if Key("org", org) !in st.nodes then P.Refused(P.BadParent)
      else if Key("team", id) in st.nodes then P.Refused(P.Exists) else P.Done
    case CreateApp(id, _, team, l) =>
      if !SafeID(id) then P.Refused(P.BadID) else if !NoNegative(l) then P.Refused(P.BadLimits)
      else if Key("team", team) !in st.nodes then P.Refused(P.BadParent)
      else if Key("app", id) in st.nodes then P.Refused(P.Exists) else P.Done
    case SetLimits(kind, id, l) =>
      if !NoNegative(l) then P.Refused(P.BadLimits)
      else if Key(kind, id) !in st.nodes then P.Refused(P.NotFound) else P.Done
    case SetKilled(kind, id, _) => if Key(kind, id) !in st.nodes then P.Refused(P.NotFound) else P.Done
    case IssueKey(keySHA, kind, id) =>
      if keySHA == "" then P.Refused(P.BadID)
      else if Key(kind, id) !in st.nodes then P.Refused(P.NotFound) else P.Done
  }

  /** What the management API asks of a call. */
  predicate Acceptable(st: P.StoreVal, op: P.Op) {
    match op
    case CreateOrg(id, _, l) => P.ValidID(id) && P.ValidLimits(l) && P.Ref(P.ORG, id) !in st.nodes
    case CreateTeam(id, _, org, l) =>
      P.ValidID(id) && P.ValidLimits(l) && P.Ref(P.TEAM, id) !in st.nodes && P.Ref(P.ORG, org) in st.nodes
    case CreateApp(id, _, team, l) =>
      P.ValidID(id) && P.ValidLimits(l) && P.Ref(P.APP, id) !in st.nodes && P.Ref(P.TEAM, team) in st.nodes
    case SetLimits(kind, id, l) => P.ValidLimits(l) && P.Ref(kind, id) in st.nodes
    case SetKilled(kind, id, _) => P.Ref(kind, id) in st.nodes
    case IssueKey(keySHA, kind, id) => keySHA != "" && P.Ref(kind, id) in st.nodes
  }

  /** Every management call is answered so, and a refused one changes nothing. */
  lemma AnsweredAs(st: P.StoreVal, op: P.Op)
    ensures P.Apply(st, op).1 == Verdict(st, op) && (Verdict(st, op).Done? <==> Acceptable(st, op))
    ensures !Acceptable(st, op) ==> P.Apply(st, op).0 == st
  {
    KeyIsRef();
    hide Key, P.Ref;
    IDsAlike();
    hide SafeID, P.ValidID;
  }

  lemma KeyIsRef()
    ensures forall kind, id :: Key(kind, id) == P.Ref(kind, id)
  {
  }

  lemma IDsAlike()
    ensures forall id :: SafeID(id) == P.ValidID(id)
  {
    assert forall c :: Safe(c) == P.SafeChar(c);
  }

  /** A call under a key the policy knows, with nothing malformed about it. */
  predicate Governed(st: P.StoreVal, c: UOp)
    requires c.Call?
  {
    c.keySHA in st.keys && !BadRun(c)
  }

  /** Managing keeps every path. */
  lemma PathsKept(st: P.StoreVal, op: P.Op, leaf: string)
    requires Resolution.Grown(st) && leaf in st.nodes
    ensures var st' := P.Apply(st, op).0;
            && Resolution.Grown(st')
            && forall k {:trigger AtOrUnder(st'.nodes, leaf, k)} :: AtOrUnder(st'.nodes, leaf, k) == AtOrUnder(st.nodes, leaf, k)
  {
    ManagingMovesNothing(st, op, leaf);
    var a, b := st.nodes, P.Apply(st, op).0.nodes;
    hide PathRefs, P.Apply;
    assert forall k :: AtOrUnder(b, leaf, k) == (k in PathRefs(b, leaf)) && AtOrUnder(a, leaf, k) == (k in PathRefs(a, leaf));
  }

  /** Two trees with the same paths that differ in one node. */
  ghost predicate DifferAt(st: P.StoreVal, st': P.StoreVal, leaf: string, ref: string) {
    && Resolution.Grown(st) && Resolution.Grown(st') && st'.keys == st.keys && ref in st.nodes && ref in st'.nodes
    && (forall k :: k != ref ==> (k in st.nodes <==> k in st'.nodes) && (k in st.nodes ==> st'.nodes[k] == st.nodes[k]))
    && forall k {:trigger AtOrUnder(st'.nodes, leaf, k)} :: AtOrUnder(st'.nodes, leaf, k) == AtOrUnder(st.nodes, leaf, k)
  }

  lemma OthersAbove(st: P.StoreVal, st': P.StoreVal, leaf: string, ref: string, k: string, n: P.Node)
    requires DifferAt(st, st', leaf, ref)
    ensures k != ref ==> (Above(st'.nodes, leaf, k, n) <==> Above(st.nodes, leaf, k, n))
    ensures Above(st'.nodes, leaf, ref, n) <==> AtOrUnder(st.nodes, leaf, ref) && n == st'.nodes[ref]
    ensures Above(st.nodes, leaf, ref, n) <==> AtOrUnder(st.nodes, leaf, ref) && n == st.nodes[ref]
  {
    hide AtOrUnder;
  }

  lemma KilledWithOthers(st: P.StoreVal, st': P.StoreVal, leaf: string, ref: string)
    requires DifferAt(st, st', leaf, ref)
    ensures KilledAbove(st'.nodes, leaf) <==>
            (st'.nodes[ref].killed && AtOrUnder(st.nodes, leaf, ref)) || exists k, n :: Above(st.nodes, leaf, k, n) && k != ref && n.killed
    ensures KilledAbove(st.nodes, leaf) <==>
            (st.nodes[ref].killed && AtOrUnder(st.nodes, leaf, ref)) || exists k, n :: Above(st.nodes, leaf, k, n) && k != ref && n.killed
  {
    hide Above, AtOrUnder;
    forall k, n
      ensures k != ref ==> (Above(st'.nodes, leaf, k, n) <==> Above(st.nodes, leaf, k, n))
    {
      OthersAbove(st, st', leaf, ref, k, n);
    }
    OthersAbove(st, st', leaf, ref, ref, st'.nodes[ref]);
    OthersAbove(st, st', leaf, ref, ref, st.nodes[ref]);
    forall n
      ensures Above(st'.nodes, leaf, ref, n) ==> n == st'.nodes[ref]
      ensures Above(st.nodes, leaf, ref, n) ==> n == st.nodes[ref]
    {
      OthersAbove(st, st', leaf, ref, ref, n);
    }
  }

  lemma SettingDiffers(st: P.StoreVal, op: P.Op, leaf: string, ref: string)
    requires Resolution.Grown(st) && leaf in st.nodes && ref in st.nodes
    requires (op.SetKilled? || (op.SetLimits? && P.ValidLimits(op.limits))) && ref == P.Ref(op.kind, op.id)
    ensures var st' := P.Apply(st, op).0;
            && DifferAt(st, st', leaf, ref)
            && st'.nodes[ref].killed == (if op.SetKilled? then op.killed else st.nodes[ref].killed)
            && (op.SetLimits? ==> st'.nodes[ref].limits == op.limits)
  {
    hide AtOrUnder, P.Apply, Resolution.Grown, P.Ref;
    PathsKept(st, op, leaf);
    SetWrites(st, op, ref);
  }

  lemma SetWrites(st: P.StoreVal, op: P.Op, ref: string)
    requires ref in st.nodes
    requires (op.SetKilled? || (op.SetLimits? && P.ValidLimits(op.limits))) && ref == P.Ref(op.kind, op.id)
    ensures var n := st.nodes[ref];
            P.Apply(st, op).0 == st.(nodes := st.nodes[ref := if op.SetKilled? then n.(killed := op.killed) else n.(limits := op.limits)])
  {
    hide P.Ref;
  }

  lemma DifferKeys(st: P.StoreVal, st': P.StoreVal, leaf: string, ref: string)
    requires DifferAt(st, st', leaf, ref)
    ensures Resolution.Grown(st') && st'.keys == st.keys
  {
  }

  lemma GrownKeys(st: P.StoreVal, keySHA: string)
    requires Resolution.Grown(st) && keySHA in st.keys
    ensures st.keys[keySHA] in st.nodes && P.WellKeyed(st.nodes)
  {
  }

  /** Setting one node's breaker stops or frees the calls at and under it, and no others. */
  lemma SetKilledFelt(st: P.StoreVal, kind: string, id: string, killed: bool, c: UOp)
    requires Resolution.Grown(st) && P.Ref(kind, id) in st.nodes && c.Call? && Governed(st, c)
    ensures var st', ref, leaf := P.Apply(st, P.SetKilled(kind, id, killed)).0, P.Ref(kind, id), st.keys[c.keySHA];
            && Resolution.Grown(st') && Governed(st', c)
            && (Ask(st', c).None? <==>
                (killed && AtOrUnder(st.nodes, leaf, ref)) || exists k, n :: Above(st.nodes, leaf, k, n) && k != ref && n.killed)
  {
    hide AtOrUnder, Above, Ask, KilledAbove, BadRun, DifferAt, P.Apply, Resolution.Grown;
    var op, ref, leaf := P.SetKilled(kind, id, killed), P.Ref(kind, id), st.keys[c.keySHA];
    var st' := P.Apply(st, op).0;
    GrownKeys(st, c.keySHA);
    SettingDiffers(st, op, leaf, ref);
    DifferKeys(st, st', leaf, ref);
    KilledWithOthers(st, st', leaf, ref);
    DeniedBeforeIff(st', c);
  }

  /** Setting one node's caps leaves every call governed as it was, and changes that node's caps in what is
      asked of the firewall to exactly those set. */
  lemma SetLimitsFelt(st: P.StoreVal, kind: string, id: string, l: P.Limits, c: UOp)
    requires Resolution.Grown(st) && P.ValidLimits(l) && P.Ref(kind, id) in st.nodes && c.Call? && Governed(st, c)
    ensures var st', ref, leaf := P.Apply(st, P.SetLimits(kind, id, l)).0, P.Ref(kind, id), st.keys[c.keySHA];
            && Resolution.Grown(st') && Governed(st', c) && Ask(st', c).None? == Ask(st, c).None?
            && (Ask(st', c).Some? ==> CapsSetAt(st, Ask(st', c).value, leaf, ref, l))
  {
    hide AtOrUnder, Above, Ask, KilledAbove, BadRun, CapsSetAt, DifferAt, P.Apply, Resolution.Grown;
    var op, ref, leaf := P.SetLimits(kind, id, l), P.Ref(kind, id), st.keys[c.keySHA];
    var st' := P.Apply(st, op).0;
    GrownKeys(st, c.keySHA);
    SettingDiffers(st, op, leaf, ref);
    DifferKeys(st, st', leaf, ref);
    KilledWithOthers(st, st', leaf, ref);
    DeniedBeforeIff(st, c);
    DeniedBeforeIff(st', c);
    if Ask(st', c).Some? {
      CapsAreSet(st, st', leaf, ref, l, c);
    }
  }

  /** What is asked carries l for ref, and for every other node what is stored of it. */
  ghost predicate CapsSetAt(st: P.StoreVal, r: FirewallRuns.Op, leaf: string, ref: string, l: P.Limits)
    requires P.WellKeyed(st.nodes)
  {
    && r.Request? && r.target.Chain?
    && (AtOrUnder(st.nodes, leaf, ref) ==> exists sc :: sc in r.target.scopes && sc.key == ref && SameCaps(l, sc.limits))
    && forall sc {:trigger sc in r.target.scopes} :: sc in r.target.scopes && sc.name != "run" ==>
         if sc.key == ref then SameCaps(l, sc.limits) else exists n :: Above(st.nodes, leaf, sc.key, n) && ScopeOf(sc, sc.key, n)
  }

  lemma CapsAreSet(st: P.StoreVal, st': P.StoreVal, leaf: string, ref: string, l: P.Limits, c: UOp)
    requires DifferAt(st, st', leaf, ref) && st'.nodes[ref].limits == l
    requires c.Call? && c.keySHA in st'.keys && st'.keys[c.keySHA] == leaf && Ask(st', c).Some?
    ensures CapsSetAt(st, Ask(st', c).value, leaf, ref, l)
  {
    hide AtOrUnder, Above, Ask;
    AskedChain(st', c);
    var scopes := Ask(st', c).value.target.scopes;
    forall sc {:trigger sc in scopes} | sc in scopes && sc.name != "run"
      ensures if sc.key == ref then SameCaps(l, sc.limits) else exists n :: Above(st.nodes, leaf, sc.key, n) && ScopeOf(sc, sc.key, n)
    {
      var n :| Above(st'.nodes, leaf, sc.key, n) && ScopeOf(sc, sc.key, n);
      OthersAbove(st, st', leaf, ref, sc.key, n);
    }
    OthersAbove(st, st', leaf, ref, ref, st'.nodes[ref]);
  }

  /** An issued key governs its calls by the node it was issued for; other keys are as they were. */
  lemma IssueKeyFelt(st: P.StoreVal, keySHA: string, kind: string, id: string, c: UOp)
    requires Resolution.Grown(st) && keySHA != "" && P.Ref(kind, id) in st.nodes && c.Call?
    ensures var st' := P.Apply(st, P.IssueKey(keySHA, kind, id)).0;
            && Resolution.Grown(st') && st'.nodes == st.nodes
            && (if c.keySHA == keySHA
                then LeafOf(st', c) == P.Ref(kind, id) && (Ask(st', c).None? <==> BadRun(c) || KilledAbove(st.nodes, P.Ref(kind, id)))
                else Ask(st', c) == Ask(st, c) && LeafOf(st', c) == LeafOf(st, c))
  {
    hide P.Apply, Resolution.Grown, Ask, BadRun, KilledAbove, P.Ref;
    var op := P.IssueKey(keySHA, kind, id);
    var st' := P.Apply(st, op).0;
    IssueWrites(st, keySHA, kind, id);
    Resolution.ApplyKeepsGrown(st, op);
    GrownIsKeyed(st);
    DeniedBeforeIff(st', c);
    if c.keySHA != keySHA {
      AskReads(st, st', c);
    }
  }

  lemma IssueWrites(st: P.StoreVal, keySHA: string, kind: string, id: string)
    requires keySHA != "" && P.Ref(kind, id) in st.nodes
    ensures P.Apply(st, P.IssueKey(keySHA, kind, id)).0 == st.(keys := st.keys[keySHA := P.Ref(kind, id)])
  {
    hide P.Ref;
  }

  lemma GrownIsKeyed(st: P.StoreVal)
    requires Resolution.Grown(st)
    ensures P.WellKeyed(st.nodes)
  {
  }

  /** What is asked depends on the tree and on the call's own key alone. */
  lemma AskReads(st: P.StoreVal, st': P.StoreVal, c: UOp)
    requires c.Call? && P.WellKeyed(st.nodes) && st'.nodes == st.nodes
    requires (c.keySHA in st.keys <==> c.keySHA in st'.keys) && (c.keySHA in st.keys ==> st'.keys[c.keySHA] == st.keys[c.keySHA])
    ensures Ask(st', c) == Ask(st, c)
  {
    hide P.Up, P.ChainOf;
  }

  /** The node a create call makes. */
  function Made(op: P.Op): P.Node
    requires op.CreateOrg? || op.CreateTeam? || op.CreateApp?
  {
    match op
    case CreateOrg(id, name, l) => P.Node(P.ORG, id, name, "", l, false)
    case CreateTeam(id, name, org, l) => P.Node(P.TEAM, id, name, org, l, false)
    case CreateApp(id, name, team, l) => P.Node(P.APP, id, name, team, l, false)
  }

  /** A new node stands below its parent, not killed and with the caps it was given. */
  lemma CreatedFelt(st: P.StoreVal, op: P.Op, k: string, n: P.Node)
    requires Resolution.Grown(st) && (op.CreateOrg? || op.CreateTeam? || op.CreateApp?) && Acceptable(st, op)
    ensures var st', m := P.Apply(st, op).0, Made(op);
            && Resolution.Grown(st') && st'.keys == st.keys && P.RefOf(m) in st'.nodes
            && (Above(st'.nodes, P.RefOf(m), k, n) <==>
                (k == P.RefOf(m) && n == m) || (!op.CreateOrg? && Above(st.nodes, P.ParentRef(m), k, n)))
  {
    var st', m := P.Apply(st, op).0, Made(op);
    Resolution.ApplyKeepsGrown(st, op);
    assert st'.nodes == st.nodes[P.RefOf(m) := m] && st'.keys == st.keys;
    hide P.Apply, Acceptable, Above;
    if op.CreateOrg? {
      OrgStandsAlone(st', m, k, n);
    } else {
      ParentIsKept(st, op);
      PathsKept(st, op, P.ParentRef(m));
      RefNotAboveParent(st, op, k);
      AboveNew(st', m, k, n);
      AboveParentSame(st, st', m, k, n);
    }
  }

  lemma OrgStandsAlone(st: P.StoreVal, m: P.Node, k: string, n: P.Node)
    requires Resolution.Grown(st) && P.RefOf(m) in st.nodes && st.nodes[P.RefOf(m)] == m && m.parentID == ""
    ensures Above(st.nodes, P.RefOf(m), k, n) <==> k == P.RefOf(m) && n == m
  {
    assert P.Up(st.nodes, m) == P.Ok([m]);
    assert Refs([m]) == [P.RefOf(m)];
  }

  lemma AboveNew(st: P.StoreVal, m: P.Node, k: string, n: P.Node)
    requires Resolution.Grown(st) && P.RefOf(m) in st.nodes && st.nodes[P.RefOf(m)] == m
    requires m.parentID != "" && P.ParentRef(m) in st.nodes
    ensures Above(st.nodes, P.RefOf(m), k, n) <==> (k == P.RefOf(m) && n == m) || Above(st.nodes, P.ParentRef(m), k, n)
  {
    P.ParentIsOneUp(st.nodes, m);
    Resolution.GrownWalkReachesOrg(st, st.nodes[P.ParentRef(m)]);
    var above := P.Up(st.nodes, st.nodes[P.ParentRef(m)]).value;
    assert P.Up(st.nodes, m) == P.Ok([m] + above);
    assert Refs([m] + above) == [P.RefOf(m)] + Refs(above);
  }

  lemma AboveParentSame(st: P.StoreVal, st': P.StoreVal, m: P.Node, k: string, n: P.Node)
    requires P.WellKeyed(st.nodes) && P.WellKeyed(st'.nodes) && st'.nodes == st.nodes[P.RefOf(m) := m]
    requires AtOrUnder(st'.nodes, P.ParentRef(m), k) == AtOrUnder(st.nodes, P.ParentRef(m), k)
    requires AtOrUnder(st.nodes, P.ParentRef(m), k) ==> k in st.nodes && k != P.RefOf(m)
    ensures Above(st'.nodes, P.ParentRef(m), k, n) == Above(st.nodes, P.ParentRef(m), k, n)
  {
    hide AtOrUnder;
  }

  lemma ParentIsKept(st: P.StoreVal, op: P.Op)
    requires Resolution.Grown(st) && (op.CreateTeam? || op.CreateApp?) && Acceptable(st, op)
    ensures Made(op).parentID != "" && P.ParentRef(Made(op)) in st.nodes
  {
    var m := Made(op);
    var p := st.nodes[P.ParentRef(m)];
    P.ParentIsOneUp(st.nodes, m);
    P.RefInjective(P.Parent(m.kind), m.parentID, p.kind, p.id);
    assert Resolution.GrownNode(st.nodes, p);
  }

  /** What is above the parent was there before. */
  lemma RefNotAboveParent(st: P.StoreVal, op: P.Op, k: string)
    requires Resolution.Grown(st) && (op.CreateTeam? || op.CreateApp?) && Acceptable(st, op)
    requires P.ParentRef(Made(op)) in st.nodes
    ensures AtOrUnder(st.nodes, P.ParentRef(Made(op)), k) ==> k in st.nodes && k != P.RefOf(Made(op))
  {
    var pr := P.ParentRef(Made(op));
    var path := PathIsAbove(st, pr);
    if AtOrUnder(st.nodes, pr, k) {
      var i :| 0 <= i < |path| && Refs(path)[i] == k;
      assert Above(st.nodes, pr, P.RefOf(path[i]), path[i]);
    }
  }

  // ---- until it is reset -------------------------------------------------------------------------------------------

  /** No operation takes the breaker of ref back. */
  predicate NeverReset(ops: seq<UOp>, ref: string) {
    forall i :: 0 <= i < |ops| && ops[i].Manage? && ops[i].op.SetKilled? ==> ops[i].op.killed || P.Ref(ops[i].op.kind, ops[i].op.id) != ref
  }

  lemma StaysKilled(cfg: Config, u: USys, op: UOp, ref: string)
    requires Resolution.Grown(u.store) && ref in u.store.nodes && u.store.nodes[ref].killed && NeverReset([op], ref)
    ensures var st := UStep(cfg, u, op).store; ref in st.nodes && st.nodes[ref].killed
  {
    hide Step, Ask, Resolution.Grown, P.Ref;
    assert [op][0] == op;
    if op.Manage? {
      ManagedStaysKilled(u.store, op.op, ref);
    }
  }

  lemma ManagedStaysKilled(st: P.StoreVal, op: P.Op, ref: string)
    requires ref in st.nodes && st.nodes[ref].killed && (op.SetKilled? ==> op.killed || P.Ref(op.kind, op.id) != ref)
    ensures var st' := P.Apply(st, op).0; ref in st'.nodes && st'.nodes[ref].killed
  {
    hide P.Ref;
  }

  lemma {:induction false} KilledNodeStays(cfg: Config, pre: seq<UOp>, post: seq<UOp>, ref: string)
    requires var st := URun(cfg, pre).store; ref in st.nodes && st.nodes[ref].killed
    requires NeverReset(post, ref)
    ensures var st := URun(cfg, pre + post).store; ref in st.nodes && st.nodes[ref].killed
  {
    if post == [] {
      assert pre + post == pre;
    } else {
      var k := |post| - 1;
      KilledNodeStays(cfg, pre, post[..k], ref);
      assert (pre + post)[..|pre + post| - 1] == pre + post[..k] && (pre + post)[|pre + post| - 1] == post[k];
      StaysKilled(cfg, URun(cfg, pre + post[..k]), post[k], ref);
      hide UStep;
    }
  }

  lemma KillNow(cfg: Config, pre: seq<UOp>, kind: string, id: string)
    requires P.Ref(kind, id) in URun(cfg, pre).store.nodes
    ensures var st := URun(cfg, pre + [Manage(P.SetKilled(kind, id, true))]).store;
            P.Ref(kind, id) in st.nodes && st.nodes[P.Ref(kind, id)].killed
  {
    assert (pre + [Manage(P.SetKilled(kind, id, true))])[..|pre|] == pre;
  }

  /** Once a node is killed, whatever else happens and until it is reset, a call whose key's node is at
      or under it changes nothing. */
  lemma KilledUntilReset(cfg: Config, pre: seq<UOp>, kind: string, id: string, post: seq<UOp>, c: UOp)
    requires P.Ref(kind, id) in URun(cfg, pre).store.nodes && NeverReset(post, P.Ref(kind, id)) && c.Call?
    requires var st := URun(cfg, pre + [Manage(P.SetKilled(kind, id, true))] + post).store;
             c.keySHA in st.keys && AtOrUnder(st.nodes, st.keys[c.keySHA], P.Ref(kind, id))
    ensures var u := URun(cfg, pre + [Manage(P.SetKilled(kind, id, true))] + post); UStep(cfg, u, c) == u
  {
    hide AtOrUnder, URun, UStep, NeverReset;
    var ref, kill := P.Ref(kind, id), Manage(P.SetKilled(kind, id, true));
    KillNow(cfg, pre, kind, id);
    KilledNodeStays(cfg, pre + [kill], post, ref);
    var st := URun(cfg, pre + [kill] + post).store;
    assert Above(st.nodes, st.keys[c.keySHA], ref, st.nodes[ref]);
    BreakerHolds(cfg, pre + [kill] + post, c);
  }
}
