/** What resolution returns, stated without the walk: the full ancestry or an error. */
module Resolution {
  import Keys
  import opened PolicySpec

  // ---- the ancestry of a node -------------------------------------------------------------------

  predicate LinkedUp(nodes: Nodes, path: seq<Node>, i: int)
    requires 0 <= i < |path| - 1
  {
    path[i].parentID != "" && ParentRef(path[i]) in nodes && path[i + 1] == nodes[ParentRef(path[i])]
  }

  /** path runs from n to a record without a parent, each record the parent of the one before. */
  ghost predicate Ancestry(nodes: Nodes, n: Node, path: seq<Node>) {
    && path != [] && path[0] == n && path[|path| - 1].parentID == ""
    && forall i {:trigger LinkedUp(nodes, path, i)} :: 0 <= i < |path| - 1 ==> LinkedUp(nodes, path, i)
  }

  /** The walk finds the ancestry exactly when there is one, and there is at most one. */
  lemma {:induction false} UpFindsAncestry(nodes: Nodes, n: Node, path: seq<Node>)
    requires WellKeyed(nodes) && IsKind(n.kind)
    ensures Up(nodes, n) == Ok(path) <==> Ancestry(nodes, n, path)
    decreases Rank(n.kind)
  {
    if n.parentID == "" {
      assert |path| > 1 && path[0] == n ==> !LinkedUp(nodes, path, 0);
      assert |path| == 1 && path[0] == n ==> path == [n];
    } else if ParentRef(n) !in nodes {
      assert |path| > 1 && path[0] == n ==> !LinkedUp(nodes, path, 0);
    } else {
      ParentIsOneUp(nodes, n);
      var p := nodes[ParentRef(n)];
      if Ancestry(nodes, n, path) {
        assert LinkedUp(nodes, path, 0);
        forall i | 0 <= i < |path| - 2
          ensures LinkedUp(nodes, path[1..], i)
        {
          assert LinkedUp(nodes, path, i + 1);
        }
        UpFindsAncestry(nodes, p, path[1..]);
        assert path == [n] + path[1..];
      }
      if Up(nodes, n) == Ok(path) {
        UpFindsAncestry(nodes, p, path[1..]);
        assert path == [n] + path[1..];
        forall i | 0 <= i < |path| - 1
          ensures LinkedUp(nodes, path, i)
        {
          assert i > 0 ==> LinkedUp(nodes, path[1..], i - 1);
        }
      }
    }
  }

  ghost predicate FullAncestry(st: StoreVal, keySHA: string, path: seq<Node>) {
    && keySHA in st.keys && st.keys[keySHA] in st.nodes
    && Ancestry(st.nodes, st.nodes[st.keys[keySHA]], path)
    && path[|path| - 1].kind == ORG
  }

  // ---- the chain a lineage gives -------------------------------------------------------------------

  /** cap is 0 when no record on the path caps runs, and the smallest such cap otherwise. */
  ghost predicate IsTightest(path: seq<Node>, cap: real) {
    && (forall i :: 0 <= i < |path| && path[i].limits.usdPerRun != 0.0 ==> cap != 0.0 && cap <= path[i].limits.usdPerRun)
    && (cap != 0.0 ==> exists i :: 0 <= i < |path| && path[i].limits.usdPerRun == cap)
  }

  /** killer names the killed record nearest the root (the path's end), "" when none is killed. */
  ghost predicate IsKilledNearestRoot(path: seq<Node>, killer: string) {
    if killer == "" then forall i :: 0 <= i < |path| ==> !path[i].killed
    else exists j :: 0 <= j < |path| && path[j].killed && killer == RefOf(path[j])
                     && forall i :: j < i < |path| ==> !path[i].killed
  }

  lemma {:induction false} RunCapIsTightest(path: seq<Node>)
    ensures IsTightest(path, RunCap(path))
  {
    if path != [] {
      RunCapIsTightest(path[1..]);
      var above, own := RunCap(path[1..]), path[0].limits.usdPerRun;
      forall i | 0 <= i < |path| && path[i].limits.usdPerRun != 0.0
        ensures RunCap(path) != 0.0 && RunCap(path) <= path[i].limits.usdPerRun
      {
        if i > 0 {
          assert path[1..][i - 1] == path[i];
        }
      }
      if RunCap(path) != 0.0 {
        if own != 0.0 && (above == 0.0 || own < above) {
          assert path[0].limits.usdPerRun == RunCap(path);
        } else {
          var i :| 0 <= i < |path| - 1 && path[1..][i].limits.usdPerRun == above;
          assert path[i + 1].limits.usdPerRun == RunCap(path);
        }
      }
    }
  }

  lemma {:induction false} KilledByNearestRoot(path: seq<Node>)
    ensures IsKilledNearestRoot(path, KilledBy(path))
  {
    if path != [] {
      KilledByNearestRoot(path[1..]);
      var above := KilledBy(path[1..]);
      if above != "" {
        var j :| 0 <= j < |path| - 1 && path[1..][j].killed && above == RefOf(path[1..][j])
                 && forall i :: j < i < |path| - 1 ==> !path[1..][i].killed;
        forall i | j + 1 < i < |path|
          ensures !path[i].killed
        {
          assert path[i] == path[1..][i - 1];
        }
        assert path[j + 1].killed && above == RefOf(path[j + 1]);
      } else {
        forall i | 0 < i < |path|
          ensures !path[i].killed
        {
          assert path[i] == path[1..][i - 1];
        }
        if path[0].killed {
          assert RefOf(path[0])[|path[0].kind|] == ':';
          assert KilledBy(path) == RefOf(path[0]);
        }
      }
    }
  }

  lemma {:induction false} NodeScopesRootFirst(path: seq<Node>, i: nat)
    requires i < |path|
    ensures var n := path[|path| - 1 - i]; NodeScopes(path)[i] == Scope(n.kind, RefOf(n), n.limits)
  {
    if i < |path| - 1 {
      NodeScopesRootFirst(path[1..], i);
    }
  }

  /** The chain lists the whole path root first, then the run scope when a run is named. */
  ghost predicate Describes(ch: Chain, path: seq<Node>, keySHA: string, runID: string)
    requires path != []
  {
    var n := |path|;
    && |ch.scopes| == n + (if runID == "" then 0 else 1)
    && (forall i {:trigger ch.scopes[i]} :: 0 <= i < n ==>
          ch.scopes[i] == Scope(path[n - 1 - i].kind, RefOf(path[n - 1 - i]), path[n - 1 - i].limits))
    && IsKilledNearestRoot(path, ch.killedBy)
    && (runID != "" ==>
          && ch.scopes[n].name == "run" && ch.scopes[n].key == RunKey(RefOf(path[0]), keySHA, runID)
          && IsTightest(path, ch.scopes[n].limits.usdPerRun)
          && ch.scopes[n].limits.(usdPerRun := 0.0) == NoLimits)
  }

  lemma ChainDescribesLineage(path: seq<Node>, keySHA: string, runID: string)
    requires path != []
    ensures Describes(ChainOf(path, keySHA, runID), path, keySHA, runID)
  {
    forall i {:trigger NodeScopes(path)[i]} | 0 <= i < |path|
      ensures var n := path[|path| - 1 - i]; NodeScopes(path)[i] == Scope(n.kind, RefOf(n), n.limits)
    {
      NodeScopesRootFirst(path, i);
    }
    RunCapIsTightest(path);
    KilledByNearestRoot(path);
  }

  /** On any well-keyed store, with any records missing, resolution returns the full ancestry
      ending at an org, or the error that says why there is none: never a truncated chain. */
  lemma ResolveIsFullOrError(st: StoreVal, keySHA: string, runID: string)
    requires WellKeyed(st.nodes)
    ensures match Resolve(st, keySHA, runID)
            case Ok(ch) => exists path :: FullAncestry(st, keySHA, path) && Describes(ch, path, keySHA, runID)
            case Err(e) =>
              || (e == BadRunID && runID != "" && !ValidID(runID))
              || (e == UnknownKey && (runID == "" || ValidID(runID)) && keySHA !in st.keys)
              || (e == BrokenChain && (runID == "" || ValidID(runID)) && keySHA in st.keys
                  && forall path :: !FullAncestry(st, keySHA, path))
  {
    if (runID == "" || ValidID(runID)) && keySHA in st.keys && st.keys[keySHA] in st.nodes {
      var leaf := st.nodes[st.keys[keySHA]];
      forall path
        ensures Up(st.nodes, leaf) == Ok(path) <==> Ancestry(st.nodes, leaf, path)
      {
        UpFindsAncestry(st.nodes, leaf, path);
      }
      if Resolve(st, keySHA, runID).Ok? {
        var path := Up(st.nodes, leaf).value;
        ChainDescribesLineage(path, keySHA, runID);
        assert FullAncestry(st, keySHA, path);
      }
    }
  }

  // ---- stores reached through the API ---------------------------------------------------------------

  ghost predicate GrownNode(nodes: Nodes, n: Node) {
    && ValidID(n.id) && ValidLimits(n.limits)
    && (n.kind == ORG <==> n.parentID == "")
    && (n.parentID != "" ==> ParentRef(n) in nodes)
  }

  /** No record refers to a missing one, and every key points at a record. */
  ghost predicate Grown(st: StoreVal) {
    && WellKeyed(st.nodes)
    && (forall r :: r in st.nodes ==> GrownNode(st.nodes, st.nodes[r]))
    && (forall k :: k in st.keys ==> st.keys[k] in st.nodes)
  }

  lemma CreateKeepsGrown(st: StoreVal, n: Node)
    requires Grown(st) && IsKind(n.kind) && (n.kind == ORG ==> n.parentID == "")
    ensures Grown(Create(st, n).0)
  {
    var (st', out) := Create(st, n);
    if out.Done? {
      if n.kind != ORG && n.parentID == "" {
        // an empty parent id names no record: records have valid ids
        var p := st.nodes[ParentRef(n)];
        ParentIsOneUp(st.nodes, n);
        RefInjective(Parent(n.kind), "", p.kind, p.id);
        assert false;
      }
      forall r | r in st'.nodes
        ensures GrownNode(st'.nodes, st'.nodes[r])
      {
        if r != RefOf(n) {
          assert GrownNode(st.nodes, st.nodes[r]);
        }
      }
    }
  }

  lemma ApplyKeepsGrown(st: StoreVal, op: Op)
    requires Grown(st)
    ensures Grown(Apply(st, op).0)
  {
    match op
    case CreateOrg(id, name, l) => CreateKeepsGrown(st, Node(ORG, id, name, "", l, false));
    case CreateTeam(id, name, orgID, l) => CreateKeepsGrown(st, Node(TEAM, id, name, orgID, l, false));
    case CreateApp(id, name, teamID, l) => CreateKeepsGrown(st, Node(APP, id, name, teamID, l, false));
    case SetLimits(kind, id, l) =>
      if ValidLimits(l) && Ref(kind, id) in st.nodes {
      }
    case SetKilled(kind, id, killed) =>
      if Ref(kind, id) in st.nodes {
        assert GrownNode(st.nodes, st.nodes[Ref(kind, id)]);
      }
    case IssueKey(_, _, _) =>
  }

  lemma {:induction false} RunsAreGrown(ops: seq<Op>)
    ensures Grown(ApplyAll(ops))
  {
    if ops != [] {
      RunsAreGrown(ops[..|ops| - 1]);
      ApplyKeepsGrown(ApplyAll(ops[..|ops| - 1]), ops[|ops| - 1]);
    }
  }

  lemma {:induction false} GrownWalkReachesOrg(st: StoreVal, n: Node)
    requires Grown(st) && IsKind(n.kind) && GrownNode(st.nodes, n)
    ensures var up := Up(st.nodes, n); up.Ok? && up.value != [] && up.value[|up.value| - 1].kind == ORG
    ensures |Up(st.nodes, n).value| == Rank(n.kind)
    decreases Rank(n.kind)
  {
    if n.parentID != "" {
      ParentIsOneUp(st.nodes, n);
      GrownWalkReachesOrg(st, st.nodes[ParentRef(n)]);
    }
  }

  /** Through the API a chain never breaks: every issued key resolves. */
  lemma ResolveNeverBroken(ops: seq<Op>, keySHA: string, runID: string)
    ensures Grown(ApplyAll(ops)) && Resolve(ApplyAll(ops), keySHA, runID) != Err(BrokenChain)
  {
    var st := ApplyAll(ops);
    RunsAreGrown(ops);
    if keySHA in st.keys {
      GrownWalkReachesOrg(st, st.nodes[st.keys[keySHA]]);
    }
  }

  // ---- unambiguous keys ----------------------------------------------------------------------------------

  /** The run key is injective in (leaf, key hash, run id), whatever bytes the hash contains. */
  lemma RunKeyInjective(k1: string, id1: string, sha1: string, run1: string,
                        k2: string, id2: string, sha2: string, run2: string)
    requires IsKind(k1) && IsKind(k2) && ValidID(id1) && ValidID(id2) && ValidID(run1) && ValidID(run2)
    requires RunKey(Ref(k1, id1), sha1, run1) == RunKey(Ref(k2, id2), sha2, run2)
    ensures k1 == k2 && id1 == id2 && sha1 == sha2 && run1 == run2
  {
    var r1, r2 := Ref(k1, id1), Ref(k2, id2);
    var x1, x2 := sha1 + [Keys.NUL] + run1, sha2 + [Keys.NUL] + run2;
    Keys.PrefixCancel("run:", r1 + [Keys.NUL] + x1, r2 + [Keys.NUL] + x2);
    Keys.SplitFirst(Keys.NUL, r1, r2, x1, x2);
    Keys.SplitLast(Keys.NUL, sha1, sha2, run1, run2);
    RefInjective(k1, id1, k2, id2);
  }

  /** Node keys, policy run keys, the firewall's flat run keys and its client keys never meet. */
  lemma KeyFamiliesDisjoint(kind: string, id: string, leafKind: string, leafID: string, sha: string, run: string,
                            owner: string, flatRun: string, client: string)
    requires IsKind(kind) && IsKind(leafKind) && flatRun != ""
    ensures var node, policyRun := Ref(kind, id), RunKey(Ref(leafKind, leafID), sha, run);
            var flat, key := Keys.FlatRunKey(owner, flatRun), Keys.FlatClientKey(client);
            node != policyRun && node != flat && node != key && policyRun != flat && policyRun != key && flat != key
  {
    var node, policyRun := Ref(kind, id), RunKey(Ref(leafKind, leafID), sha, run);
    var flat, key := Keys.FlatRunKey(owner, flatRun), Keys.FlatClientKey(client);
    assert node[0] == kind[0] && policyRun[0] == 'r' && flat[0] == 'r' && key[0] == 'k';
    assert policyRun[4] == leafKind[0] && flat[4] == Keys.Itoa(|owner|)[0];
  }

  /** Two records of one ancestry have different keys. */
  lemma AncestryRefsDiffer(nodes: Nodes, path: seq<Node>, i: nat, j: nat)
    requires WellKeyed(nodes) && path != [] && IsKind(path[0].kind) && Ancestry(nodes, path[0], path) && i < j < |path|
    ensures RefOf(path[i]) != RefOf(path[j])
  {
    AncestryKinds(nodes, path, i);
    AncestryKinds(nodes, path, j);
    AncestryRanksFall(nodes, path, i, j);
    if RefOf(path[i]) == RefOf(path[j]) {
      RefInjective(path[i].kind, path[i].id, path[j].kind, path[j].id);
    }
  }

  lemma RefIsNoRunKey(n: Node, key: string)
    requires IsKind(n.kind) && |key| > 0 && key[0] == 'r'
    ensures RefOf(n) != key
  {
    assert RefOf(n)[0] == n.kind[0];
  }

  lemma DescribedKeysDistinct(nodes: Nodes, path: seq<Node>, ch: Chain, keySHA: string, runID: string, i: nat, j: nat)
    requires WellKeyed(nodes) && path != [] && IsKind(path[0].kind) && Ancestry(nodes, path[0], path)
    requires Describes(ch, path, keySHA, runID) && i < j < |ch.scopes|
    ensures ch.scopes[i].key != ch.scopes[j].key
  {
    var n := |path|;
    assert ch.scopes[i].key == RefOf(path[n - 1 - i]);
    if j < n {
      AncestryRefsDiffer(nodes, path, n - 1 - j, n - 1 - i);
    } else {
      AncestryKinds(nodes, path, n - 1 - i);
      RefIsNoRunKey(path[n - 1 - i], ch.scopes[j].key);
    }
  }

  /** A resolved chain names pairwise distinct scopes. */
  lemma ResolvedKeysDistinct(st: StoreVal, keySHA: string, runID: string)
    requires WellKeyed(st.nodes) && Resolve(st, keySHA, runID).Ok?
    ensures var scopes := Resolve(st, keySHA, runID).value.scopes;
            forall i, j :: 0 <= i < j < |scopes| ==> scopes[i].key != scopes[j].key
  {
    var path := ResolvedPath(st, keySHA, runID);
    var ch := Resolve(st, keySHA, runID).value;
    forall i, j | 0 <= i < j < |ch.scopes|
      ensures ch.scopes[i].key != ch.scopes[j].key
    {
      DescribedKeysDistinct(st.nodes, path, ch, keySHA, runID, i, j);
    }
  }

  lemma ResolvedPath(st: StoreVal, keySHA: string, runID: string) returns (path: seq<Node>)
    requires WellKeyed(st.nodes) && Resolve(st, keySHA, runID).Ok?
    ensures FullAncestry(st, keySHA, path) && Describes(Resolve(st, keySHA, runID).value, path, keySHA, runID)
    ensures path == Up(st.nodes, st.nodes[st.keys[keySHA]]).value
  {
    ResolveIsFullOrError(st, keySHA, runID);
    path :| FullAncestry(st, keySHA, path) && Describes(Resolve(st, keySHA, runID).value, path, keySHA, runID);
    UpFindsAncestry(st.nodes, st.nodes[st.keys[keySHA]], path);
  }

  lemma {:induction false} AncestryKinds(nodes: Nodes, path: seq<Node>, i: nat)
    requires WellKeyed(nodes) && path != [] && IsKind(path[0].kind) && Ancestry(nodes, path[0], path) && i < |path|
    ensures IsKind(path[i].kind)
  {
    if i > 0 {
      assert LinkedUp(nodes, path, i - 1);
    }
  }

  lemma {:induction false} AncestryRanksFall(nodes: Nodes, path: seq<Node>, i: nat, j: nat)
    requires WellKeyed(nodes) && path != [] && IsKind(path[0].kind) && Ancestry(nodes, path[0], path) && i < j < |path|
    ensures Rank(path[i].kind) > Rank(path[j].kind)
  {
    AncestryKinds(nodes, path, j - 1);
    assert LinkedUp(nodes, path, j - 1);
    ParentIsOneUp(nodes, path[j - 1]);
    if i < j - 1 {
      AncestryRanksFall(nodes, path, i, j - 1);
    }
  }
}
