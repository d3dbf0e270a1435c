/** The policy store as it runs: records held by reference, changed in place. */
module Policy {
  import opened PolicySpec

  class Record {
    const kind: string
    const id: string
    const name: string
    const parentID: string
    var limits: Limits
    var killed: bool

    ghost function View(): Node
      reads this
    {
      Node(kind, id, name, parentID, limits, killed)
    }

    constructor (n: Node)
      ensures View() == n
    {
      kind, id, name, parentID, limits, killed := n.kind, n.id, n.name, n.parentID, n.limits, n.killed;
    }
  }

  /** The outcome of a walk that has already passed the records in done. */
  function Below(done: seq<Node>, above: Result<seq<Node>>): Result<seq<Node>> {
    match above
    case Ok(rest) => Ok(done + rest)
    case Err(e) => Err(e)
  }

  lemma WalkStarts(above: Result<seq<Node>>)
    ensures Below([], above) == above
  {
    assert above.Ok? ==> [] + above.value == above.value;
  }

  lemma WalkStep(nodes: Nodes, done: seq<Node>, n: Node)
    requires WellKeyed(nodes) && IsKind(n.kind) && n.parentID != "" && ParentRef(n) in nodes
    ensures Below(done, Up(nodes, n)) == Below(done + [n], Up(nodes, nodes[ParentRef(n)]))
  {
    var above := Up(nodes, nodes[ParentRef(n)]);
    if above.Ok? {
      assert done + ([n] + above.value) == done + [n] + above.value;
    }
  }

  lemma WalkEnds(nodes: Nodes, done: seq<Node>, n: Node)
    requires WellKeyed(nodes) && IsKind(n.kind) && (n.parentID == "" || ParentRef(n) !in nodes)
    ensures Below(done, Up(nodes, n)) == if n.parentID == "" then Ok(done + [n]) else Err(BrokenChain)
  {
  }

  class Store {
    var nodes: map<string, Record>
    var keys: map<string, string>

    /** No two keys share a record. */
    ghost predicate Valid()
      reads this
    {
      forall a, b :: a in nodes && b in nodes && a != b ==> nodes[a] != nodes[b]
    }

    ghost function View(): StoreVal
      reads this, nodes.Values
    {
      StoreVal(map r | r in nodes :: nodes[r].View(), keys)
    }

    constructor ()
      ensures Valid() && View() == EmptyStore
    {
      nodes, keys := map[], map[];
    }

    // ---- the management API ----------------------------------------------------------------------

    method Put(n: Node) returns (out: Outcome)
      requires Valid()
      modifies this`nodes
      ensures Valid() && (View(), out) == PolicySpec.Put(old(View()), n)
      ensures fresh(nodes.Values - old(nodes).Values)
    {
      if RefOf(n) in nodes {
        return Refused(Exists);
      }
      var cp := new Record(n);
      nodes := nodes[RefOf(n) := cp];
      assert View().nodes == old(View().nodes)[RefOf(n) := n];
      return Done;
    }

    method PutChild(n: Node, parentKind: string) returns (out: Outcome)
      requires Valid()
      modifies this`nodes
      ensures Valid() && (View(), out) == PolicySpec.PutChild(old(View()), n, parentKind)
      ensures fresh(nodes.Values - old(nodes).Values)
    {
      if Ref(parentKind, n.parentID) !in nodes {
        return Refused(BadParent);
      }
      out := Put(n);
    }

    method CreateOrg(id: string, name: string, l: Limits) returns (out: Outcome)
      requires Valid()
      modifies this`nodes
      ensures Valid() && (View(), out) == Apply(old(View()), Op.CreateOrg(id, name, l))
      ensures fresh(nodes.Values - old(nodes).Values)
    {
      if !ValidID(id) {
        return Refused(BadID);
      }
      if !ValidLimits(l) {
        return Refused(BadLimits);
      }
      out := Put(Node(ORG, id, name, "", l, false));
    }

    method CreateTeam(id: string, name: string, orgID: string, l: Limits) returns (out: Outcome)
      requires Valid()
      modifies this`nodes
      ensures Valid() && (View(), out) == Apply(old(View()), Op.CreateTeam(id, name, orgID, l))
      ensures fresh(nodes.Values - old(nodes).Values)
    {
      if !ValidID(id) {
        return Refused(BadID);
      }
      if !ValidLimits(l) {
        return Refused(BadLimits);
      }
      out := PutChild(Node(TEAM, id, name, orgID, l, false), ORG);
    }

    method CreateApp(id: string, name: string, teamID: string, l: Limits) returns (out: Outcome)
      requires Valid()
      modifies this`nodes
      ensures Valid() && (View(), out) == Apply(old(View()), Op.CreateApp(id, name, teamID, l))
      ensures fresh(nodes.Values - old(nodes).Values)
    {
      if !ValidID(id) {
        return Refused(BadID);
      }
      if !ValidLimits(l) {
        return Refused(BadLimits);
      }
      out := PutChild(Node(APP, id, name, teamID, l, false), TEAM);
    }

    method SetLimits(kind: string, id: string, l: Limits) returns (out: Outcome)
      requires Valid()
      modifies nodes.Values
      ensures Valid() && (View(), out) == Apply(old(View()), Op.SetLimits(kind, id, l))
    {
      if !ValidLimits(l) {
        return Refused(BadLimits);
      }
      var ref := Ref(kind, id);
      if ref !in nodes {
        return Refused(NotFound);
      }
      nodes[ref].limits := l;
      assert View().nodes == old(View().nodes)[ref := old(View().nodes)[ref].(limits := l)];
      return Done;
    }

    method SetKilled(kind: string, id: string, killed: bool) returns (out: Outcome)
      requires Valid()
      modifies nodes.Values
      ensures Valid() && (View(), out) == Apply(old(View()), Op.SetKilled(kind, id, killed))
    {
      var ref := Ref(kind, id);
      if ref !in nodes {
        return Refused(NotFound);
      }
      nodes[ref].killed := killed;
      assert View().nodes == old(View().nodes)[ref := old(View().nodes)[ref].(killed := killed)];
      return Done;
    }

    method IssueKey(keySHA: string, kind: string, id: string) returns (out: Outcome)
      requires Valid()
      modifies this`keys
      ensures Valid() && (View(), out) == Apply(old(View()), Op.IssueKey(keySHA, kind, id))
    {
      if keySHA == "" {
        return Refused(BadID);
      }
      var ref := Ref(kind, id);
      if ref !in nodes {
        return Refused(NotFound);
      }
      keys := keys[keySHA := ref];
      assert View().nodes == old(View().nodes);
      return Done;
    }

    // ---- resolution ----------------------------------------------------------------------------------

    /** Collects the records from a leaf up to one without a parent; ok is false when a parent
        record is missing. */
    method Walk(leaf: string) returns (ok: bool, lineage: seq<Record>, ghost path: seq<Node>)
      requires Valid() && WellKeyed(View().nodes) && leaf in nodes
      ensures Up(View().nodes, View().nodes[leaf]) == if ok then Ok(path) else Err(BrokenChain)
      ensures ok ==> Shows(lineage, path) && lineage != []
    {
      hide Up, Below;
      ghost var all := View().nodes;
      var n := nodes[leaf];
      lineage, path := [n], [];
      WalkStarts(Up(all, all[leaf]));
      while n.parentID != ""
        invariant IsKind(n.kind) && Shows(lineage, path + [n.View()]) && lineage[|lineage| - 1] == n
        invariant Up(all, all[leaf]) == Below(path, Up(all, n.View()))
        decreases Rank(n.kind)
      {
        var p := Ref(Parent(n.kind), n.parentID);
        if p !in nodes {
          WalkEnds(all, path, n.View());
          return false, [], [];
        }
        ParentIsOneUp(all, n.View());
        WalkStep(all, path, n.View());
        path := path + [n.View()];
        n := nodes[p];
        lineage := lineage + [n];
      }
      WalkEnds(all, path, n.View());
      path := path + [n.View()];
      ok := true;
    }

    ghost predicate Shows(lineage: seq<Record>, path: seq<Node>)
      reads lineage
    {
      |lineage| == |path| && forall i :: 0 <= i < |path| ==> lineage[i].View() == path[i]
    }

    /** Emits the scopes root first, with the first killed record met and the tightest run cap. */
    method Emit(lineage: seq<Record>, ghost path: seq<Node>) returns (scopes: seq<Scope>, killedBy: string, runCap: real)
      requires Shows(lineage, path)
      ensures scopes == NodeScopes(path) && killedBy == KilledBy(path) && runCap == RunCap(path)
    {
      scopes, killedBy, runCap := [], "", 0.0;
      for i := |lineage| downto 0
        invariant scopes == NodeScopes(path[i..]) && killedBy == KilledBy(path[i..]) && runCap == RunCap(path[i..])
      {
        assert path[i..][1..] == path[i + 1..];
        var n := lineage[i];
        var ref := Ref(n.kind, n.id);
        if n.killed && killedBy == "" {
          killedBy := ref;
        }
        scopes := scopes + [Scope(n.kind, ref, n.limits)];
        runCap := Tightest(runCap, n.limits.usdPerRun);
      }
      assert path[0..] == path;
    }

    method Resolve(keySHA: string, runID: string) returns (r: Result<Chain>)
      requires Valid() && WellKeyed(View().nodes)
      ensures r == PolicySpec.Resolve(View(), keySHA, runID)
    {
      if runID != "" && !ValidID(runID) {
        return Err(BadRunID);
      }
      if keySHA !in keys {
        return Err(UnknownKey);
      }
      var leaf := keys[keySHA];
      if leaf !in nodes {
        return Err(BrokenChain);
      }
      var ok, lineage, path := Walk(leaf);
      if !ok || lineage[|lineage| - 1].kind != ORG {
        return Err(BrokenChain);
      }
      var scopes, killedBy, runCap := Emit(lineage, path);
      assert NodeScopes(path) + [] == NodeScopes(path) && lineage[0].View() == path[0];
      if runID != "" {
        var ref := Ref(lineage[0].kind, lineage[0].id);
        scopes := scopes + [Scope("run", RunKey(ref, keySHA, runID), NoLimits.(usdPerRun := runCap))];
      }
      return Ok(Chain(scopes, killedBy));
    }
  }
}
