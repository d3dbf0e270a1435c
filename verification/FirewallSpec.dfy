/** What one instance of the firewall computes: state and operations as values. The
    classes of module Firewalls are proved to implement these functions; module
    FirewallRuns proves what every run of them keeps. */
module FirewallSpec {
  import opened WindowLog
  import opened Windows
  import opened KillStore
  import Keys

  // Times are nanoseconds; a window second is a whole multiple of SECOND.
  const SECOND: int := 1_000_000_000
  const GC_INTERVAL: int := 30 * SECOND
  const IDLE_EVICT: int := 2 * WINDOW * SECOND
  const MAX_SCOPES: int := 50_000
  const MAX_KEY_LEN: int := 512
  const NEVER: int := -GC_INTERVAL

  function Unix(now: nat): nat {
    now / SECOND
  }

  /** Per-scope caps; 0 disables a cap. */
  datatype Limits = Limits(usdPerMin: real, tokPerMin: int, concurrent: int, usdPerRun: real)

  datatype Scope = Scope(name: string, key: string, limits: Limits)

  /** Firewall-wide settings. limits are the caps Enter applies to its built-in scopes. */
  datatype Config = Config(enabled: bool, limits: Limits, loopThreshold: int, kill: KillConfig)

  /** billed is a history value: actual spend settled on the scope since it was created. */
  datatype ScopeVal = ScopeVal(window: WindowVal, inflight: int, lastTouch: int, runUSD: real, billed: real)

  datatype LoopVal = LoopVal(recent: seq<string>, lastTouch: int)

  datatype Fw = Fw(scopes: map<string, ScopeVal>, loops: map<string, LoopVal>, lastGC: int, kills: KillVal)

  const EmptyFw := Fw(map[], map[], NEVER, NoKills)
  const FreshScope := ScopeVal(EmptyWindow, 0, 0, 0.0, 0.0)

  datatype Denial = Killed | Velocity(scope: string, retryAfterSec: int) | Concurrency(scope: string) | BadChain

  /** A reservation held against the scopes named in keys; runKey is "" when no per-run
      budget is held. at is the second it was admitted in. */
  datatype Ticket = Ticket(keys: seq<string>, runKey: string, usd: real, tok: int, at: int,
                           settled: bool, released: bool)

  const InertTicket := Ticket([], "", 0.0, 0, 0, false, false)

  datatype Verdict = Admitted(ticket: Ticket) | Denied(why: Denial)

  datatype Option<T> = None | Some(value: T)

  // ---- reading a state (an absent scope reads as zero) -------------------------------

  function Inflight(f: Fw, k: string): int {
    if k in f.scopes then f.scopes[k].inflight else 0
  }

  function RunUSD(f: Fw, k: string): real {
    if k in f.scopes then f.scopes[k].runUSD else 0.0
  }

  function Billed(f: Fw, k: string): real {
    if k in f.scopes then f.scopes[k].billed else 0.0
  }

  function SumUSD(f: Fw, k: string, sec: int): real {
    if k in f.scopes then f.scopes[k].window.SumUSD(sec) else 0.0
  }

  function SumTok(f: Fw, k: string, sec: int): real {
    if k in f.scopes then f.scopes[k].window.SumTok(sec) else 0.0
  }

  // ---- garbage collection ------------------------------------------------------------

  predicate Idle(st: ScopeVal, now: nat) {
    && st.inflight == 0
    && st.window.SumUSD(Unix(now)) == 0.0 && st.window.SumTok(Unix(now)) == 0.0
    && now - st.lastTouch > IDLE_EVICT
  }

  function Read(st: ScopeVal, sec: nat): ScopeVal {
    st.(window := st.window.Advanced(sec))
  }

  /** What the sweep leaves of the scopes: every one is read, the idle ones are dropped. */
  function LiveScopes(scopes: map<string, ScopeVal>, now: nat): map<string, ScopeVal> {
    map k | k in scopes && !Idle(scopes[k], now) :: Read(scopes[k], Unix(now))
  }

  function LiveLoops(loops: map<string, LoopVal>, now: nat): map<string, LoopVal> {
    map k | k in loops && now - loops[k].lastTouch <= IDLE_EVICT :: loops[k]
  }

  function GC(f: Fw, cfg: Config, now: nat): Fw {
    if |f.scopes| < MAX_SCOPES && now - f.lastGC < GC_INTERVAL then f
    else Fw(LiveScopes(f.scopes, now), LiveLoops(f.loops, now), now, Swept(f.kills, cfg.kill, now))
  }

  // ---- scopes ------------------------------------------------------------------------

  function Ensured(f: Fw, k: string, now: nat): Fw {
    f.(scopes := f.scopes[k := (if k in f.scopes then f.scopes[k] else FreshScope).(lastTouch := now)])
  }

  /** The window of k as the velocity check reads it, moved to sec. */
  function Touched(f: Fw, k: string, sec: nat): Fw
    requires k in f.scopes
  {
    f.(scopes := f.scopes[k := Read(f.scopes[k], sec)])
  }

  predicate HasVelocityCap(l: Limits) {
    l.usdPerMin > 0.0 || l.tokPerMin > 0
  }

  predicate OverVelocity(l: Limits, usedUSD: real, usedTok: real, usd: real, tok: int) {
    || (l.usdPerMin > 0.0 && usedUSD + usd > l.usdPerMin)
    || (l.tokPerMin > 0 && usedTok + tok as real > l.tokPerMin as real)
  }

  /** Velocity checks in chain order, stopping at the first breach. A scope that is not in
      the map is not checked. */
  function CheckVelocities(f: Fw, scopes: seq<Scope>, usd: real, tok: int, sec: nat): (Fw, Option<string>)
    decreases |scopes|
  {
    if scopes == [] then (f, None)
    else
      var sc := scopes[0];
      if !HasVelocityCap(sc.limits) || sc.key !in f.scopes then CheckVelocities(f, scopes[1..], usd, tok, sec)
      else
        var f' := Touched(f, sc.key, sec);
        if OverVelocity(sc.limits, SumUSD(f, sc.key, sec), SumTok(f, sc.key, sec), usd, tok) then (f', Some(sc.name))
        else CheckVelocities(f', scopes[1..], usd, tok, sec)
  }

  function CheckConcurrency(f: Fw, scopes: seq<Scope>): Option<string> {
    if scopes == [] then None
    else
      var sc := scopes[0];
      if sc.limits.concurrent > 0 && sc.key in f.scopes && f.scopes[sc.key].inflight >= sc.limits.concurrent
      then Some(sc.name)
      else CheckConcurrency(f, scopes[1..])
  }

  function Held(st: ScopeVal, sec: nat, usd: real, tok: int): ScopeVal {
    st.(window := st.window.Added(sec, usd, tok), inflight := st.inflight + 1)
  }

  function ReserveOne(f: Fw, k: string, usd: real, tok: int, now: nat): Fw {
    var g := Ensured(f, k, now);
    g.(scopes := g.scopes[k := Held(g.scopes[k], Unix(now), usd, tok)])
  }

  function ReserveAll(f: Fw, scopes: seq<Scope>, usd: real, tok: int, now: nat): Fw
    decreases |scopes|
  {
    if scopes == [] then f else ReserveAll(ReserveOne(f, scopes[0].key, usd, tok, now), scopes[1..], usd, tok, now)
  }

  function ScopeKeys(scopes: seq<Scope>): (ks: seq<string>)
    ensures |ks| == |scopes| && forall i :: 0 <= i < |ks| ==> ks[i] == scopes[i].key
  {
    seq(|scopes|, i requires 0 <= i < |scopes| => scopes[i].key)
  }

  lemma NamedScope(scopes: seq<Scope>, k: string) returns (sc: Scope)
    requires k in ScopeKeys(scopes)
    ensures sc in scopes && sc.key == k
  {
    var i :| 0 <= i < |scopes| && ScopeKeys(scopes)[i] == k;
    sc := scopes[i];
  }

  /** Check every scope, then reserve every scope: all or nothing. */
  function CheckReserve(f: Fw, scopes: seq<Scope>, usd: real, tok: int, now: nat): (Fw, Option<Denial>) {
    var (g, over) := CheckVelocities(f, scopes, usd, tok, Unix(now));
    if over.Some? then (g, Some(Velocity(over.value, WINDOW)))
    else
      var full := CheckConcurrency(g, scopes);
      if full.Some? then (g, Some(Concurrency(full.value)))
      else (ReserveAll(g, scopes, usd, tok, now), None)
  }

  // ---- loop detection and the per-run budget -------------------------------------------

  function HistLen(threshold: int): (n: int)
    ensures n >= 8
  {
    if threshold * 2 < 8 then 8 else threshold * 2
  }

  /** The history after one more prompt: the newest HistLen hashes. */
  function Remember(recent: seq<string>, hash: string, threshold: int): seq<string> {
    var r := recent + [hash];
    if |r| > HistLen(threshold) then r[|r| - HistLen(threshold)..] else r
  }

  /** Only occurrences of the newest hash are counted. */
  predicate Trips(recent: seq<string>, hash: string, threshold: int) {
    multiset(Remember(recent, hash, threshold))[hash] >= threshold
  }

  function TripLoop(f: Fw, cfg: Config, runKey: string, hash: string, now: nat): (Fw, bool) {
    var recent := if runKey in f.loops then f.loops[runKey].recent else [];
    var recent' := Remember(recent, hash, cfg.loopThreshold);
    (f.(loops := f.loops[runKey := LoopVal(recent', now)]), Trips(recent, hash, cfg.loopThreshold))
  }

  function Charged(st: ScopeVal, usd: real): ScopeVal {
    st.(runUSD := st.runUSD + usd)
  }

  function AddRun(f: Fw, k: string, usd: real): Fw
    requires k in f.scopes
  {
    f.(scopes := f.scopes[k := Charged(f.scopes[k], usd)])
  }

  function LoopChecked(f: Fw, cfg: Config, runKey: string, hash: string, now: nat): (Fw, bool) {
    if runKey != "" && cfg.loopThreshold > 0 && hash != "" then TripLoop(f, cfg, runKey, hash, now) else (f, false)
  }

  /** (state, tripped, budget key): the estimate is held against the run when it fits. */
  function CheckLoopBudget(f: Fw, cfg: Config, runKey: string, hash: string, usd: real, runMax: real, now: nat)
    : (Fw, bool, string)
  {
    var (g, looped) := LoopChecked(f, cfg, runKey, hash, now);
    if looped then (g, true, "")
    else if runKey != "" && runMax > 0.0 then
      if RunUSD(g, runKey) + usd > runMax then (g, true, "")
      else (AddRun(Ensured(g, runKey, now), runKey, usd), false, runKey)
    else (g, false, "")
  }

  function Unreserved(f: Fw, budgetKey: string, usd: real): Fw {
    if budgetKey == "" || budgetKey !in f.scopes then f
    else f.(scopes := f.scopes[budgetKey := f.scopes[budgetKey].(runUSD := Floor0(f.scopes[budgetKey].runUSD - usd))])
  }

  // ---- admission -----------------------------------------------------------------------

  /** The checks and reservations made under the lock: (state, tripped, verdict). */
  function EnterLocked(f: Fw, cfg: Config, scopes: seq<Scope>, runKey: string, hash: string, runMax: real,
                       usd: real, tok: int, now: nat): (Fw, bool, Verdict)
  {
    var (g, tripped, budgetKey) := CheckLoopBudget(GC(f, cfg, now), cfg, runKey, hash, usd, runMax, now);
    if tripped then (g, true, Denied(Killed))
    else
      var (h, denied) := CheckReserve(g, scopes, usd, tok, now);
      if denied.Some? then (Unreserved(h, budgetKey, usd), false, Denied(denied.value))
      else (h, false, Admitted(Ticket(ScopeKeys(scopes), budgetKey, usd, tok, Unix(now), false, false)))
  }

  /** The local kill check; remote is what the shared kill store answered. */
  function IsKilled(f: Fw, cfg: Config, runKey: string, remote: bool, now: nat): (Fw, bool) {
    if runKey == "" then (f, false)
    else
      var (kills, local) := KilledStep(f.kills, cfg.kill, runKey, now);
      (f.(kills := kills), local || remote)
  }

  function DoKill(f: Fw, cfg: Config, runKey: string, now: nat): Fw {
    f.(kills := KillStep(f.kills, cfg.kill, runKey, now).0)
  }

  /** What a request asks the firewall to enforce: the built-in key and run scopes, or a
      resolved policy chain. */
  datatype Target = Flat(client: string, runID: string) | Chain(scopes: seq<Scope>)

  function FlatScopes(cfg: Config, client: string, runID: string): seq<Scope> {
    (if client != "" then [Scope("key", Keys.FlatClientKey(client), cfg.limits)] else [])
    + (if runID != "" then [Scope("run", Keys.FlatRunKey(client, runID), cfg.limits)] else [])
  }

  function RunScopes(scopes: seq<Scope>): (r: seq<Scope>)
    ensures forall sc :: sc in r <==> sc in scopes && sc.name == "run"
  {
    if scopes == [] then []
    else
      var rest := RunScopes(scopes[..|scopes| - 1]);
      if scopes[|scopes| - 1].name == "run" then rest + [scopes[|scopes| - 1]] else rest
  }

  predicate WellFormedChain(scopes: seq<Scope>) {
    && (forall sc :: sc in scopes ==> sc.key != "" && |sc.key| <= MAX_KEY_LEN)
    && |RunScopes(scopes)| <= 1
  }

  function TargetScopes(cfg: Config, t: Target): seq<Scope> {
    match t
    case Flat(client, runID) => FlatScopes(cfg, client, runID)
    case Chain(scopes) => scopes
  }

  function TargetRunKey(t: Target): string {
    match t
    case Flat(client, runID) => Keys.FlatRunKey(client, runID)
    case Chain(scopes) => var r := RunScopes(scopes); if r == [] then "" else r[|r| - 1].key
  }

  function TargetRunMax(cfg: Config, t: Target): real {
    match t
    case Flat(_, _) => cfg.limits.usdPerRun
    case Chain(scopes) => var r := RunScopes(scopes); if r == [] then 0.0 else r[|r| - 1].limits.usdPerRun
  }

  /** The shared admit core: estimates floored at zero, kill check, locked checks, and the
      kill that an automatic trip issues. */
  function EnterCore(f: Fw, cfg: Config, scopes: seq<Scope>, runKey: string, hash: string, runMax: real,
                     estUSD: real, estTok: int, remote: bool, now: nat): (r: (Fw, Verdict))
  {
    var usd := Floor0(estUSD);
    var tok := ClampTok(estTok);
    var (g, killed) := IsKilled(f, cfg, runKey, remote, now);
    if killed then (g, Denied(Killed))
    else
      var (h, tripped, v) := EnterLocked(g, cfg, scopes, runKey, hash, runMax, usd, tok, now);
      if tripped then (DoKill(h, cfg, runKey, now), Denied(Killed)) else (h, v)
  }

  /** One pre-vendor admission decision. */
  function Enter(f: Fw, cfg: Config, t: Target, hash: string, estUSD: real, estTok: int, remote: bool, now: nat)
    : (r: (Fw, Verdict))
  {
    if !cfg.enabled then (f, Admitted(InertTicket))
    else if t.Chain? && !WellFormedChain(t.scopes) then (f, Denied(BadChain))
    else EnterCore(f, cfg, TargetScopes(cfg, t), TargetRunKey(t), hash, TargetRunMax(cfg, t), estUSD, estTok, remote, now)
  }

  // ---- reconciliation ------------------------------------------------------------------

  function Booked(st: ScopeVal, sec: nat, dUSD: real, dTok: int): ScopeVal {
    st.(window := st.window.Added(sec, dUSD, dTok))
  }

  function BookOne(f: Fw, k: string, sec: nat, dUSD: real, dTok: int): Fw {
    if k !in f.scopes then f else f.(scopes := f.scopes[k := Booked(f.scopes[k], sec, dUSD, dTok)])
  }

  function BookAll(f: Fw, ks: seq<string>, sec: nat, dUSD: real, dTok: int): Fw
    decreases |ks|
  {
    if ks == [] then f else BookAll(BookOne(f, ks[0], sec, dUSD, dTok), ks[1..], sec, dUSD, dTok)
  }

  function SettledRun(st: ScopeVal, est: real, usd: real): ScopeVal {
    st.(runUSD := Floor0(st.runUSD + (usd - est)), billed := st.billed + usd)
  }

  function SettleRun(f: Fw, runKey: string, est: real, usd: real): Fw {
    if runKey == "" || runKey !in f.scopes then f
    else f.(scopes := f.scopes[runKey := SettledRun(f.scopes[runKey], est, usd)])
  }

  /** Settle(actual): the difference from the estimate goes into the windows and the run
      budget. A ticket already settled or released is left alone. */
  function Settle(f: Fw, t: Ticket, usd: real, tok: int, now: nat): (r: (Fw, Ticket)) {
    if t.settled || t.released then (f, t)
    else (SettleRun(BookAll(f, t.keys, Unix(now), usd - t.usd, tok - t.tok), t.runKey, t.usd, usd), t.(settled := true))
  }

  function Freed(st: ScopeVal, unbook: bool, usd: real, tok: int, sec: nat): ScopeVal {
    var st1 := if st.inflight > 0 then st.(inflight := st.inflight - 1) else st;
    if unbook then Booked(st1, sec, -usd, -tok) else st1
  }

  function ReleaseOne(f: Fw, k: string, unbook: bool, usd: real, tok: int, sec: nat): Fw {
    if k !in f.scopes then f else f.(scopes := f.scopes[k := Freed(f.scopes[k], unbook, usd, tok, sec)])
  }

  function ReleaseAll(f: Fw, ks: seq<string>, unbook: bool, usd: real, tok: int, sec: nat): Fw
    decreases |ks|
  {
    if ks == [] then f else ReleaseAll(ReleaseOne(f, ks[0], unbook, usd, tok, sec), ks[1..], unbook, usd, tok, sec)
  }

  /** Release: free the slots and, if the request never settled, take the estimate back. */
  function Release(f: Fw, t: Ticket, now: nat): (r: (Fw, Ticket)) {
    if t.released then (f, t)
    else
      var g := ReleaseAll(f, t.keys, !t.settled, t.usd, t.tok, Unix(now));
      (if t.settled then g else Unreserved(g, t.runKey, t.usd), t.(released := true))
  }
}
