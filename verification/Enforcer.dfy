/** The adapter between the policy model and the firewall: a resolved chain in the
    firewall's form, and the three answers a request can get. */
module Enforcer {
  import F = FirewallSpec
  import P = PolicySpec
  import Resolution

  /** Calendar budgets have no counterpart in the firewall and are dropped. */
  function TranslateLimits(l: P.Limits): F.Limits {
    F.Limits(l.usdPerMin, l.tokPerMin, l.concurrent, l.usdPerRun)
  }

  function Translate(ch: P.Chain): seq<F.Scope> {
    seq(|ch.scopes|, i requires 0 <= i < |ch.scopes| =>
      F.Scope(ch.scopes[i].name, ch.scopes[i].key, TranslateLimits(ch.scopes[i].limits)))
  }

  datatype Answer = Ungoverned | Governed(scopes: seq<F.Scope>, killedBy: string) | Failed(error: P.Error)

  function Resolve(st: P.StoreVal, keySHA: string, runID: string): Answer
    requires P.WellKeyed(st.nodes)
  {
    match P.Resolve(st, keySHA, runID)
    case Ok(ch) => Governed(Translate(ch), ch.killedBy)
    case Err(e) => if e == P.UnknownKey then Ungoverned else Failed(e)
  }

  // ---- the chain the firewall sees ------------------------------------------------------------------

  lemma {:induction false} NoRunScopes(scopes: seq<F.Scope>)
    requires forall i :: 0 <= i < |scopes| ==> scopes[i].name != "run"
    ensures F.RunScopes(scopes) == []
  {
    if scopes != [] {
      NoRunScopes(scopes[..|scopes| - 1]);
    }
  }

  lemma KeysFit(st: P.StoreVal, path: seq<P.Node>, ch: P.Chain, keySHA: string, runID: string, i: nat)
    requires Resolution.Grown(st) && Resolution.FullAncestry(st, keySHA, path) && |keySHA| <= 245
    requires Resolution.Describes(ch, path, keySHA, runID) && (runID == "" || P.ValidID(runID)) && i < |ch.scopes|
    ensures ch.scopes[i].key != "" && |ch.scopes[i].key| <= F.MAX_KEY_LEN
    ensures ch.scopes[i].name == "run" <==> i == |path|
  {
    NodeKeyShort(st, path, if i < |path| then |path| - 1 - i else 0);
  }

  lemma RunScopesOf(scopes: seq<F.Scope>, n: nat)
    requires n <= |scopes| <= n + 1 && forall i :: 0 <= i < |scopes| ==> (scopes[i].name == "run" <==> i == n)
    ensures F.RunScopes(scopes) == scopes[n..]
  {
    NoRunScopes(scopes[..n]);
    if |scopes| == n {
      assert scopes[..n] == scopes;
    } else {
      assert scopes[..|scopes| - 1] == scopes[..n] && scopes[n..] == [scopes[n]];
    }
  }

  /** Every request a resolved chain gives passes the firewall's own checks of chains: its run
      scope is the last one or there is none, and every key is present and short enough. */
  lemma ResolvedChainWellFormed(st: P.StoreVal, keySHA: string, runID: string)
    requires Resolution.Grown(st) && |keySHA| <= 245 && P.Resolve(st, keySHA, runID).Ok?
    ensures var scopes := Translate(P.Resolve(st, keySHA, runID).value);
            && F.WellFormedChain(scopes)
            && F.TargetRunKey(F.Chain(scopes)) ==
               (if runID == "" then "" else P.RunKey(st.keys[keySHA], keySHA, runID))
  {
    var ch := P.Resolve(st, keySHA, runID).value;
    var path := Resolution.ResolvedPath(st, keySHA, runID);
    var scopes := Translate(ch);
    forall i | 0 <= i < |scopes|
      ensures scopes[i].key != "" && |scopes[i].key| <= F.MAX_KEY_LEN && (scopes[i].name == "run" <==> i == |path|)
    {
      KeysFit(st, path, ch, keySHA, runID, i);
    }
    RunScopesOf(scopes, |path|);
  }

  lemma {:induction false} NodeKeyShort(st: P.StoreVal, path: seq<P.Node>, i: nat)
    requires Resolution.Grown(st) && path != [] && i < |path|
    requires P.RefOf(path[0]) in st.nodes && st.nodes[P.RefOf(path[0])] == path[0]
    requires Resolution.Ancestry(st.nodes, path[0], path)
    ensures P.RefOf(path[i]) in st.nodes && st.nodes[P.RefOf(path[i])] == path[i]
    ensures P.RefOf(path[i]) != "" && |P.RefOf(path[i])| <= 133 && path[i].kind != "run"
  {
    if i > 0 {
      NodeKeyShort(st, path, i - 1);
      assert Resolution.LinkedUp(st.nodes, path, i - 1);
      assert P.ParentRef(path[i - 1]) == P.RefOf(path[i]);
    }
    assert Resolution.GrownNode(st.nodes, path[i]);
  }
}
