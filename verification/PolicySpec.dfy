/** The provisioned hierarchy (org, team, app), its API as functions on a store value, and
    the resolution of a bearer key to the scopes a request must satisfy. */
module PolicySpec {
  import Keys

  // ---- the model -------------------------------------------------------------------------

  const ORG: string := "org"
  const TEAM: string := "team"
  const APP: string := "app"

  predicate IsKind(kind: string) {
    kind == ORG || kind == TEAM || kind == APP
  }

  function Parent(kind: string): string {
    if kind == TEAM then ORG else if kind == APP then TEAM else ""
  }

  function Rank(kind: string): nat {
    if kind == APP then 3 else if kind == TEAM then 2 else if kind == ORG then 1 else 0
  }

  /** A node's caps; 0 leaves a dimension unconstrained. */
  datatype Limits = Limits(usdPerMin: real, tokPerMin: int, concurrent: int,
                           usdPerDay: real, usdPerMonth: real, usdPerRun: real)

  const NoLimits := Limits(0.0, 0, 0, 0.0, 0.0, 0.0)

  predicate ValidLimits(l: Limits) {
    && l.usdPerMin >= 0.0 && l.tokPerMin >= 0 && l.concurrent >= 0
    && l.usdPerDay >= 0.0 && l.usdPerMonth >= 0.0 && l.usdPerRun >= 0.0
  }

  datatype Node = Node(kind: string, id: string, name: string, parentID: string, limits: Limits, killed: bool)

  type Nodes = map<string, Node>

  datatype StoreVal = StoreVal(nodes: Nodes, keys: map<string, string>)

  const EmptyStore := StoreVal(map[], map[])

  datatype Scope = Scope(name: string, key: string, limits: Limits)

  datatype Chain = Chain(scopes: seq<Scope>, killedBy: string)

  datatype Error = UnknownKey | Exists | NotFound | BadParent | BadID | BadLimits | BadRunID | BrokenChain

  datatype Result<T> = Ok(value: T) | Err(error: Error)

  datatype Outcome = Done | Refused(why: Error)

  // ---- identifiers and keys ------------------------------------------------------------------

  predicate SafeChar(c: char) {
    'a' <= c <= 'z' || 'A' <= c <= 'Z' || '0' <= c <= '9' || c == '.' || c == '_' || c == '-'
  }

  predicate ValidID(id: string) {
    id != "" && |id| <= 128 && forall i :: 0 <= i < |id| ==> SafeChar(id[i])
  }

  function Ref(kind: string, id: string): string {
    kind + [':'] + id
  }

  function RefOf(n: Node): string {
    Ref(n.kind, n.id)
  }

  function ParentRef(n: Node): string {
    Ref(Parent(n.kind), n.parentID)
  }

  function RunKey(leafRef: string, keySHA: string, runID: string): string {
    "run:" + (leafRef + [Keys.NUL] + (keySHA + [Keys.NUL] + runID))
  }

  // ---- the management API -----------------------------------------------------------------------

  function Put(st: StoreVal, n: Node): (StoreVal, Outcome) {
    if RefOf(n) in st.nodes then (st, Refused(Exists)) else (st.(nodes := st.nodes[RefOf(n) := n]), Done)
  }

  function PutChild(st: StoreVal, n: Node, parentKind: string): (StoreVal, Outcome) {
    if Ref(parentKind, n.parentID) !in st.nodes then (st, Refused(BadParent)) else Put(st, n)
  }

  datatype Op =
    | CreateOrg(id: string, name: string, limits: Limits)
    | CreateTeam(id: string, name: string, orgID: string, limits: Limits)
    | CreateApp(id: string, name: string, teamID: string, limits: Limits)
    | SetLimits(kind: string, id: string, limits: Limits)
    | SetKilled(kind: string, id: string, killed: bool)
    | IssueKey(keySHA: string, kind: string, id: string)

  function Create(st: StoreVal, n: Node): (StoreVal, Outcome) {
    if !ValidID(n.id) then (st, Refused(BadID))
    else if !ValidLimits(n.limits) then (st, Refused(BadLimits))
    else if n.kind == ORG then Put(st, n)
    else PutChild(st, n, Parent(n.kind))
  }

  function Update(st: StoreVal, ref: string, n: Node): StoreVal {
    st.(nodes := st.nodes[ref := n])
  }

  function Apply(st: StoreVal, op: Op): (StoreVal, Outcome) {
    match op
    case CreateOrg(id, name, l) => Create(st, Node(ORG, id, name, "", l, false))
    case CreateTeam(id, name, orgID, l) => Create(st, Node(TEAM, id, name, orgID, l, false))
    case CreateApp(id, name, teamID, l) => Create(st, Node(APP, id, name, teamID, l, false))
    case SetLimits(kind, id, l) =>
      if !ValidLimits(l) then (st, Refused(BadLimits))
      else if Ref(kind, id) !in st.nodes then (st, Refused(NotFound))
      else (Update(st, Ref(kind, id), st.nodes[Ref(kind, id)].(limits := l)), Done)
    case SetKilled(kind, id, killed) =>
      if Ref(kind, id) !in st.nodes then (st, Refused(NotFound))
      else (Update(st, Ref(kind, id), st.nodes[Ref(kind, id)].(killed := killed)), Done)
    case IssueKey(keySHA, kind, id) =>
      if keySHA == "" then (st, Refused(BadID))
      else if Ref(kind, id) !in st.nodes then (st, Refused(NotFound))
      else (st.(keys := st.keys[keySHA := Ref(kind, id)]), Done)
  }

  function ApplyAll(ops: seq<Op>): StoreVal {
    if ops == [] then EmptyStore else Apply(ApplyAll(ops[..|ops| - 1]), ops[|ops| - 1]).0
  }

  // ---- resolution -----------------------------------------------------------------------------------

  /** Every record sits under the key built from its own type and id. A durable store may
      have lost records, but not this. */
  ghost predicate WellKeyed(nodes: Nodes) {
    forall r :: r in nodes ==> r == RefOf(nodes[r]) && IsKind(nodes[r].kind)
  }

  lemma RefInjective(k1: string, id1: string, k2: string, id2: string)
    requires ':' !in k1 && ':' !in k2 && Ref(k1, id1) == Ref(k2, id2)
    ensures k1 == k2 && id1 == id2
  {
    Keys.SplitFirst(':', k1, k2, id1, id2);
  }

  /** A parent record is one level up, so walking up ends. */
  lemma ParentIsOneUp(nodes: Nodes, n: Node)
    requires WellKeyed(nodes) && IsKind(n.kind) && ParentRef(n) in nodes
    ensures IsKind(nodes[ParentRef(n)].kind) && nodes[ParentRef(n)].kind == Parent(n.kind)
    ensures Rank(nodes[ParentRef(n)].kind) < Rank(n.kind)
  {
    var p := nodes[ParentRef(n)];
    RefInjective(Parent(n.kind), n.parentID, p.kind, p.id);
  }

  /** The records from n up to one without a parent. */
  function Up(nodes: Nodes, n: Node): (r: Result<seq<Node>>)
    requires WellKeyed(nodes) && IsKind(n.kind)
    ensures if r.Ok? then r.value != [] else r.error == BrokenChain
    decreases Rank(n.kind)
  {
    if n.parentID == "" then Ok([n])
    else if ParentRef(n) !in nodes then Err(BrokenChain)
    else
      ParentIsOneUp(nodes, n);
      match Up(nodes, nodes[ParentRef(n)])
      case Ok(rest) => Ok([n] + rest)
      case Err(e) => Err(e)
  }

  function Tightest(a: real, b: real): real {
    if a == 0.0 then b else if b == 0.0 then a else if b < a then b else a
  }

  // The three functions below read a lineage leaf first, as it was collected, from its end.

  function RunCap(lineage: seq<Node>): real {
    if lineage == [] then 0.0 else Tightest(RunCap(lineage[1..]), lineage[0].limits.usdPerRun)
  }

  function KilledBy(lineage: seq<Node>): string {
    if lineage == [] then ""
    else
      var above := KilledBy(lineage[1..]);
      if lineage[0].killed && above == "" then RefOf(lineage[0]) else above
  }

  function NodeScopes(lineage: seq<Node>): (s: seq<Scope>)
    ensures |s| == |lineage|
  {
    if lineage == [] then []
    else NodeScopes(lineage[1..]) + [Scope(lineage[0].kind, RefOf(lineage[0]), lineage[0].limits)]
  }

  function RunScope(lineage: seq<Node>, keySHA: string, runID: string): seq<Scope>
    requires lineage != []
  {
    if runID == "" then []
    else [Scope("run", RunKey(RefOf(lineage[0]), keySHA, runID), NoLimits.(usdPerRun := RunCap(lineage)))]
  }

  function ChainOf(lineage: seq<Node>, keySHA: string, runID: string): Chain
    requires lineage != []
  {
    Chain(NodeScopes(lineage) + RunScope(lineage, keySHA, runID), KilledBy(lineage))
  }

  function Resolve(st: StoreVal, keySHA: string, runID: string): Result<Chain>
    requires WellKeyed(st.nodes)
  {
    if runID != "" && !ValidID(runID) then Err(BadRunID)
    else if keySHA !in st.keys then Err(UnknownKey)
    else if st.keys[keySHA] !in st.nodes then Err(BrokenChain)
    else
      match Up(st.nodes, st.nodes[st.keys[keySHA]])
      case Err(e) => Err(e)
      case Ok(lineage) =>
        if lineage[|lineage| - 1].kind != ORG then Err(BrokenChain)
        else Ok(ChainOf(lineage, keySHA, runID))
  }
}
