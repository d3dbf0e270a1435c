/** The firewall as it runs: scopes held by reference in a map, windows updated in place,
    tickets with flags. Every method is proved equal to the function of FirewallSpec. */
module Firewalls {
  import opened WindowLog
  import opened Windows
  import opened KillStore
  import opened FirewallSpec
  import Keys

  class ScopeState {
    const window: Window
    var inflight: int
    var lastTouch: int
    var runUSD: real
    ghost var billed: real

    ghost function Objects(): set<object> {
      {this, window, window.usd, window.toks}
    }

    ghost predicate Valid()
      reads Objects()
    {
      window.Valid()
    }

    ghost function View(): ScopeVal
      reads this, window
    {
      ScopeVal(window.View(), inflight, lastTouch, runUSD, billed)
    }

    constructor (now: int)
      ensures Valid() && View() == FreshScope.(lastTouch := now) && fresh(Objects())
    {
      var w := new Window();
      window := w;
      inflight, lastTouch, runUSD, billed := 0, now, 0.0, 0.0;
    }

    method Add(sec: nat, dUSD: real, dTok: int)
      requires Valid()
      modifies Objects()
      ensures Valid() && View() == Booked(old(View()), sec, dUSD, dTok)
    {
      window.Add(sec, dUSD, dTok);
    }

    method Hold(sec: nat, usd: real, tok: int)
      requires Valid()
      modifies Objects()
      ensures Valid() && View() == Held(old(View()), sec, usd, tok)
    {
      window.Add(sec, usd, tok);
      inflight := inflight + 1;
    }

    method SettleRun(est: real, usd: real)
      requires Valid()
      modifies this
      ensures Valid() && View() == SettledRun(old(View()), est, usd)
    {
      runUSD := runUSD + (usd - est);
      if runUSD < 0.0 {
        runUSD := 0.0;
      }
      billed := billed + usd;
    }

    method Free(unbook: bool, usd: real, tok: int, sec: nat)
      requires Valid()
      modifies Objects()
      ensures Valid() && View() == Freed(old(View()), unbook, usd, tok, sec)
    {
      if inflight > 0 {
        inflight := inflight - 1;
      }
      if unbook {
        window.Add(sec, -usd, -tok);
      }
    }
  }

  class Firewall {
    const cfg: Config
    const kills: MemKillStore
    var scopes: map<string, ScopeState>
    var loops: map<string, LoopVal>
    var lastGC: int
    /** The values of the scopes. */
    ghost var contents: map<string, ScopeVal>
    /** Which scope each object of the footprint belongs to: no two scopes share anything. */
    ghost var owner: map<object, string>

    ghost function Footprint(): set<object>
      reads this
    {
      {this, kills} + owner.Keys
    }

    ghost predicate Owns(k: string, st: ScopeState)
      reads this
    {
      && st in owner && owner[st] == k
      && st.window in owner && owner[st.window] == k
      && st.window.usd in owner && owner[st.window.usd] == k
      && st.window.toks in owner && owner[st.window.toks] == k
    }

    ghost predicate ValidScope(k: string)
      requires k in scopes && k in contents && Owns(k, scopes[k])
      reads this, scopes[k].Objects()
    {
      scopes[k].Valid() && scopes[k].View() == contents[k]
    }

    ghost predicate Valid()
      reads Footprint()
    {
      && kills.cfg == cfg.kill
      && this !in owner && kills !in owner
      && scopes.Keys == contents.Keys
      && (forall k :: k in scopes ==> Owns(k, scopes[k]))
      && (forall k :: k in scopes ==> ValidScope(k))
    }

    ghost function View(): Fw
      reads this, kills
    {
      Fw(contents, loops, lastGC, kills.View())
    }

    constructor (cfg: Config)
      ensures Valid() && View() == EmptyFw && this.cfg == cfg && fresh(Footprint())
    {
      this.cfg := cfg;
      kills := new MemKillStore(cfg.kill);
      scopes, loops, lastGC, contents, owner := map[], map[], NEVER, map[], map[];
    }

    // ---- one scope at a time ---------------------------------------------------------------

    ghost function Others(k: string): set<object>
      reads this
    {
      set o | o in owner && owner[o] != k
    }

    /** After one scope changed, recording its new value makes the whole valid again. */
    twostate lemma OneChanged(k: string)
      requires old(Valid()) && k in old(scopes) && scopes == old(scopes) && owner == old(owner)
      requires unchanged(kills) && unchanged(Others(k)) && scopes[k].Valid()
      requires contents == old(contents)[k := scopes[k].View()]
      ensures Valid()
    {
      forall j | j in scopes
        ensures Owns(j, scopes[j]) && ValidScope(j)
      {
        assert old(Owns(j, scopes[j]));
        if j != k {
          assert old(ValidScope(j));
          assert scopes[j].Objects() <= Others(k);
        }
      }
    }

    lemma ScopeFacts(k: string)
      requires Valid() && k in scopes
      ensures Owns(k, scopes[k]) && scopes[k].Valid() && scopes[k].View() == contents[k]
      ensures scopes[k].Objects() !! Others(k) && this !in Others(k) && kills !in Others(k)
      ensures scopes[k].Objects() <= Footprint() && this !in scopes[k].Objects() && kills !in scopes[k].Objects()
    {
      assert ValidScope(k);
    }

    /** Changing objects outside the footprint changes nothing here. */
    twostate lemma Untouched()
      requires old(Valid()) && unchanged(this) && unchanged(kills) && unchanged(old(owner).Keys)
      ensures Valid() && View() == old(View())
    {
    }

    lemma DomainFacts()
      requires Valid()
      ensures scopes.Keys == contents.Keys && this !in owner && kills !in owner
    {
    }

    method ReadWindow(k: string, sec: nat) returns (usd: real, tok: int)
      requires Valid() && k in scopes
      modifies this`contents, scopes[k].Objects()
      ensures Valid() && contents == old(contents)[k := Read(old(contents)[k], sec)]
      ensures usd == old(contents)[k].window.SumUSD(sec) && tok as real == old(contents)[k].window.SumTok(sec)
    {
      ScopeFacts(k);
      usd, tok := scopes[k].window.Sum(sec);
      contents := contents[k := Read(contents[k], sec)];
      OneChanged(k);
    }

    method AddTo(k: string, sec: nat, dUSD: real, dTok: int)
      requires Valid() && k in scopes
      modifies this`contents, scopes[k].Objects()
      ensures Valid() && contents == old(contents)[k := Booked(old(contents)[k], sec, dUSD, dTok)]
    {
      ScopeFacts(k);
      hide Valid, ScopeState.Valid;
      scopes[k].Add(sec, dUSD, dTok);
      contents := contents[k := Booked(contents[k], sec, dUSD, dTok)];
      OneChanged(k);
    }

    method SetRunUSD(k: string, usd: real, ghost billed: real)
      requires Valid() && k in scopes
      modifies this`contents, scopes[k]
      ensures Valid() && contents == old(contents)[k := old(contents)[k].(runUSD := usd, billed := billed)]
    {
      ScopeFacts(k);
      scopes[k].runUSD := usd;
      scopes[k].billed := billed;
      contents := contents[k := contents[k].(runUSD := usd, billed := billed)];
      OneChanged(k);
    }

    method Stamp(k: string, now: int)
      requires Valid() && k in scopes
      modifies this`contents, scopes[k]
      ensures Valid() && contents == old(contents)[k := old(contents)[k].(lastTouch := now)]
    {
      ScopeFacts(k);
      scopes[k].lastTouch := now;
      contents := contents[k := contents[k].(lastTouch := now)];
      OneChanged(k);
    }

    ghost function OwnedBy(st: ScopeState, k: string): map<object, string> {
      map o: object | o in st.Objects() :: k
    }

    /** A scope made of new objects joins the map and disturbs nothing in it. */
    twostate lemma ScopeAdded(k: string)
      requires old(Valid()) && unchanged(kills) && unchanged(old(owner).Keys)
      requires k !in old(scopes) && k in scopes && scopes == old(scopes)[k := scopes[k]]
      requires forall o: object :: o in scopes[k].Objects() ==> o !in old(owner)
      requires this !in scopes[k].Objects() && kills !in scopes[k].Objects()
      requires owner == old(owner) + OwnedBy(scopes[k], k)
      requires scopes[k].Valid() && contents == old(contents)[k := scopes[k].View()]
      ensures Valid()
    {
      forall j | j in scopes
        ensures Owns(j, scopes[j]) && ValidScope(j)
      {
        if j != k {
          assert old(Owns(j, scopes[j])) && old(ValidScope(j));
          assert scopes[j].Objects() <= old(owner).Keys;
        }
      }
    }

    method AddScope(k: string, now: int)
      requires Valid() && k !in scopes
      modifies this`scopes, this`owner, this`contents
      ensures Valid() && fresh(owner.Keys - old(owner).Keys)
      ensures contents == old(contents)[k := FreshScope.(lastTouch := now)]
    {
      var st := new ScopeState(now);
      scopes := scopes[k := st];
      owner := owner + OwnedBy(st, k);
      contents := contents[k := st.View()];
      ScopeAdded(k);
    }

    /** ensureScopeLocked: find or create the scope, and stamp it. */
    method EnsureScope(k: string, now: nat)
      requires Valid()
      modifies this`scopes, this`owner, this`contents, owner.Keys
      ensures Valid() && fresh(owner.Keys - old(owner).Keys)
      ensures k in scopes && contents == Ensured(old(View()), k, now).scopes
    {
      if k in scopes {
        ScopeFacts(k);
        Stamp(k, now);
      } else {
        AddScope(k, now);
      }
    }

    twostate lemma ScopeDropped(k: string)
      requires old(Valid()) && unchanged(kills) && unchanged(old(owner).Keys) && owner == old(owner)
      requires scopes == old(scopes) - {k} && contents == old(contents) - {k}
      ensures Valid()
    {
      forall j | j in scopes
        ensures Owns(j, scopes[j]) && ValidScope(j)
      {
        assert old(Owns(j, scopes[j])) && old(ValidScope(j));
        assert scopes[j].Objects() <= old(owner).Keys;
      }
    }

    method DropScope(k: string)
      requires Valid() && k in scopes
      modifies this`scopes, this`contents
      ensures Valid() && contents == old(contents) - {k}
    {
      DomainFacts();
      hide Valid;
      scopes := scopes - {k};
      contents := contents - {k};
      ScopeDropped(k);
    }

    // ---- garbage collection ------------------------------------------------------------------

    /** Reads one scope as the sweep does, and reports whether it is idle. */
    method ReadIdle(k: string, now: nat) returns (idle: bool)
      requires Valid() && k in scopes
      modifies this`contents, owner.Keys
      ensures Valid() && idle == Idle(old(contents)[k], now)
      ensures contents == old(contents)[k := Read(old(contents)[k], Unix(now))]
    {
      ScopeFacts(k);
      DomainFacts();
      hide Valid;
      var inflight, lastTouch := scopes[k].inflight, scopes[k].lastTouch;
      var usd, tok := ReadWindow(k, Unix(now));
      idle := inflight == 0 && usd == 0.0 && tok == 0 && now - lastTouch > IDLE_EVICT;
    }

    /** The scopes of start when all but todo have been swept. */
    ghost function SweptScopes(start: map<string, ScopeVal>, todo: set<string>, now: nat): map<string, ScopeVal> {
      map k | k in start && (k in todo || !Idle(start[k], now)) :: if k in todo then start[k] else Read(start[k], Unix(now))
    }

    lemma SweptStep(start: map<string, ScopeVal>, todo: set<string>, k: string, now: nat)
      requires k in todo && k in start
      ensures var read := SweptScopes(start, todo, now)[k := Read(start[k], Unix(now))];
              SweptScopes(start, todo - {k}, now) == if Idle(start[k], now) then read - {k} else read
    {
    }

    method SweepScopes(now: nat)
      requires Valid()
      modifies this`scopes, this`contents, owner.Keys
      ensures Valid() && contents == LiveScopes(old(contents), now)
    {
      DomainFacts();
      hide Valid;
      var todo := scopes.Keys;
      assert contents == SweptScopes(old(contents), todo, now);
      while todo != {}
        invariant Valid() && todo <= old(contents).Keys
        invariant contents == SweptScopes(old(contents), todo, now)
      {
        DomainFacts();
        var k :| k in todo;
        SweptStep(old(contents), todo, k, now);
        todo := todo - {k};
        var idle := ReadIdle(k, now);
        DomainFacts();
        if idle {
          DropScope(k);
        }
      }
      assert SweptScopes(old(contents), {}, now) == LiveScopes(old(contents), now);
    }

    method SweepLoops(now: nat)
      modifies this`loops
      ensures loops == LiveLoops(old(loops), now)
    {
      var todo := loops.Keys;
      while todo != {}
        invariant todo <= old(loops).Keys
        invariant loops == map k | k in old(loops) && (k in todo || now - old(loops)[k].lastTouch <= IDLE_EVICT) :: old(loops)[k]
      {
        var k :| k in todo;
        todo := todo - {k};
        if now - loops[k].lastTouch > IDLE_EVICT {
          loops := loops - {k};
        }
      }
    }

    /** Nothing but the loop histories, the sweep stamp and the kill map changed. */
    twostate lemma ScopesUntouched()
      requires old(Valid()) && unchanged(old(owner).Keys)
      requires scopes == old(scopes) && contents == old(contents) && owner == old(owner)
      ensures Valid()
    {
      forall j | j in scopes
        ensures Owns(j, scopes[j]) && ValidScope(j)
      {
        assert old(Owns(j, scopes[j])) && old(ValidScope(j));
        assert scopes[j].Objects() <= old(owner).Keys;
      }
    }

    method GC(now: nat)
      requires Valid()
      modifies this`scopes, this`contents, this`loops, this`lastGC, kills, owner.Keys
      ensures Valid()
      ensures View() == FirewallSpec.GC(old(View()), cfg, now)
    {
      DomainFacts();
      hide Valid;
      if |scopes| < MAX_SCOPES && now - lastGC < GC_INTERVAL {
        return;
      }
      SweepScopes(now);
      DomainFacts();
      SweepRest(now);
    }

    /** The part of the sweep that is not about scopes. */
    method SweepRest(now: nat)
      requires Valid()
      modifies this`loops, this`lastGC, kills
      ensures Valid() && loops == LiveLoops(old(loops), now) && lastGC == now && kills.View() == Swept(old(kills.View()), cfg.kill, now)
    {
      DomainFacts();
      lastGC := now;
      SweepLoops(now);
      kills.GC(now);
      ScopesUntouched();
    }

    // ---- checking and reserving ----------------------------------------------------------------

    method CheckVelocities(chain: seq<Scope>, usd: real, tok: int, sec: nat) returns (over: Option<string>)
      requires Valid()
      modifies this`contents, owner.Keys
      ensures Valid() && (View(), over) == FirewallSpec.CheckVelocities(old(View()), chain, usd, tok, sec)
    {
      DomainFacts();
      hide Valid;
      for i := 0 to |chain|
        invariant Valid()
        invariant FirewallSpec.CheckVelocities(old(View()), chain, usd, tok, sec)
               == FirewallSpec.CheckVelocities(View(), chain[i..], usd, tok, sec)
      {
        DomainFacts();
        assert chain[i..][1..] == chain[i + 1..];
        var sc := chain[i];
        if HasVelocityCap(sc.limits) && sc.key in scopes {
          ScopeFacts(sc.key);
          var usedUSD, usedTok := ReadWindow(sc.key, sec);
          if sc.limits.usdPerMin > 0.0 && usedUSD + usd > sc.limits.usdPerMin {
            return Some(sc.name);
          }
          if sc.limits.tokPerMin > 0 && usedTok + tok > sc.limits.tokPerMin {
            return Some(sc.name);
          }
        }
      }
      assert chain[|chain|..] == [];
      return None;
    }

    method CheckConcurrency(chain: seq<Scope>) returns (full: Option<string>)
      requires Valid()
      ensures full == FirewallSpec.CheckConcurrency(View(), chain)
    {
      DomainFacts();
      hide Valid;
      for i := 0 to |chain|
        invariant FirewallSpec.CheckConcurrency(View(), chain) == FirewallSpec.CheckConcurrency(View(), chain[i..])
      {
        assert chain[i..][1..] == chain[i + 1..];
        var sc := chain[i];
        if sc.limits.concurrent > 0 && sc.key in scopes {
          ScopeFacts(sc.key);
          if scopes[sc.key].inflight >= sc.limits.concurrent {
            return Some(sc.name);
          }
        }
      }
      assert chain[|chain|..] == [];
      return None;
    }

    /** Books an estimate in one scope and takes a slot. */
    method Hold(k: string, sec: nat, usd: real, tok: int)
      requires Valid() && k in scopes
      modifies this`contents, scopes[k].Objects()
      ensures Valid() && owner == old(owner)
      ensures contents == old(contents)[k := Held(old(contents)[k], sec, usd, tok)]
    {
      ScopeFacts(k);
      hide Valid, ScopeState.Valid;
      scopes[k].Hold(sec, usd, tok);
      contents := contents[k := Held(contents[k], sec, usd, tok)];
      OneChanged(k);
    }

    method ReserveOne(k: string, usd: real, tok: int, now: nat)
      requires Valid()
      modifies this`scopes, this`owner, this`contents, owner.Keys
      ensures Valid() && fresh(owner.Keys - old(owner).Keys)
      ensures contents == FirewallSpec.ReserveOne(old(View()), k, usd, tok, now).scopes
    {
      DomainFacts();
      hide Valid;
      EnsureScope(k, now);
      ScopeFacts(k);
      Hold(k, Unix(now), usd, tok);
    }

    method ReserveAll(chain: seq<Scope>, usd: real, tok: int, now: nat)
      requires Valid()
      modifies this`scopes, this`owner, this`contents, owner.Keys
      ensures Valid() && fresh(owner.Keys - old(owner).Keys)
      ensures View() == FirewallSpec.ReserveAll(old(View()), chain, usd, tok, now)
    {
      DomainFacts();
      hide Valid;
      for i := 0 to |chain|
        invariant Valid() && fresh(owner.Keys - old(owner).Keys)
        invariant FirewallSpec.ReserveAll(old(View()), chain, usd, tok, now)
               == FirewallSpec.ReserveAll(old(View()).(scopes := contents), chain[i..], usd, tok, now)
      {
        DomainFacts();
        assert chain[i..][1..] == chain[i + 1..];
        assert View() == old(View()).(scopes := contents);
        ReserveOne(chain[i].key, usd, tok, now);
      }
      assert chain[|chain|..] == [];
    }

    /** Check every scope, then reserve every scope: all or nothing. */
    method CheckReserve(chain: seq<Scope>, usd: real, tok: int, now: nat) returns (denied: Option<Denial>)
      requires Valid()
      modifies this`scopes, this`owner, this`contents, owner.Keys
      ensures Valid() && fresh(owner.Keys - old(owner).Keys)
      ensures (View(), denied) == FirewallSpec.CheckReserve(old(View()), chain, usd, tok, now)
    {
      DomainFacts();
      hide Valid;
      var over := CheckVelocities(chain, usd, tok, Unix(now));
      if over.Some? {
        return Some(Velocity(over.value, WINDOW));
      }
      var full := CheckConcurrency(chain);
      if full.Some? {
        return Some(Concurrency(full.value));
      }
      DomainFacts();
      ReserveAll(chain, usd, tok, now);
      return None;
    }

    // ---- loop detection and the per-run budget ----------------------------------------------------

    /** Appends a prompt hash to a history and counts its occurrences in what is kept. */
    method RememberPrompt(history: seq<string>, hash: string) returns (recent: seq<string>, trips: bool)
      ensures recent == Remember(history, hash, cfg.loopThreshold) && trips == Trips(history, hash, cfg.loopThreshold)
    {
      var histLen := cfg.loopThreshold * 2;
      if histLen < 8 {
        histLen := 8;
      }
      recent := history + [hash];
      if |recent| > histLen {
        recent := recent[|recent| - histLen..];
      }
      var count := 0;
      for i := 0 to |recent|
        invariant count == multiset(recent[..i])[hash]
      {
        assert recent[..i + 1] == recent[..i] + [recent[i]];
        if recent[i] == hash {
          count := count + 1;
        }
      }
      assert recent[..|recent|] == recent;
      trips := count >= cfg.loopThreshold;
    }

    method TripLoop(runKey: string, hash: string, now: nat) returns (trips: bool)
      requires Valid()
      modifies this`loops
      ensures Valid() && (View(), trips) == FirewallSpec.TripLoop(old(View()), cfg, runKey, hash, now)
    {
      DomainFacts();
      hide Valid;
      var recent := if runKey in loops then loops[runKey].recent else [];
      recent, trips := RememberPrompt(recent, hash);
      loops := loops[runKey := LoopVal(recent, now)];
      ScopesUntouched();
    }

    method RunSpent(k: string) returns (spent: real)
      requires Valid()
      ensures spent == RunUSD(View(), k)
    {
      DomainFacts();
      spent := 0.0;
      if k in scopes {
        ScopeFacts(k);
        spent := scopes[k].runUSD;
      }
    }

    method Charge(k: string, usd: real)
      requires Valid() && k in scopes
      modifies this`contents, scopes[k].Objects()
      ensures Valid() && contents == old(contents)[k := Charged(old(contents)[k], usd)]
    {
      ScopeFacts(k);
      hide Valid, ScopeState.Valid;
      scopes[k].runUSD := scopes[k].runUSD + usd;
      contents := contents[k := Charged(contents[k], usd)];
      OneChanged(k);
    }

    /** Holds an estimate against a run's budget. */
    method HoldBudget(runKey: string, usd: real, now: nat)
      requires Valid()
      modifies this`scopes, this`owner, this`contents, owner.Keys
      ensures Valid() && fresh(owner.Keys - old(owner).Keys)
      ensures contents == AddRun(Ensured(old(View()), runKey, now), runKey, usd).scopes
    {
      DomainFacts();
      hide Valid;
      EnsureScope(runKey, now);
      ScopeFacts(runKey);
      Charge(runKey, usd);
    }

    method LoopChecked(runKey: string, hash: string, now: nat) returns (looped: bool)
      requires Valid()
      modifies this`loops
      ensures Valid() && (View(), looped) == FirewallSpec.LoopChecked(old(View()), cfg, runKey, hash, now)
    {
      hide Valid;
      looped := false;
      if runKey != "" && cfg.loopThreshold > 0 && hash != "" {
        looped := TripLoop(runKey, hash, now);
      }
    }

    /** The budget half: holds the estimate when the run has room for it. */
    method CheckBudget(runKey: string, usd: real, runMax: real, now: nat) returns (tripped: bool)
      requires Valid() && runKey != "" && runMax > 0.0
      modifies this`scopes, this`owner, this`contents, owner.Keys
      ensures Valid() && fresh(owner.Keys - old(owner).Keys)
      ensures tripped <==> RunUSD(old(View()), runKey) + usd > runMax
      ensures contents == if tripped then old(contents) else AddRun(Ensured(old(View()), runKey, now), runKey, usd).scopes
    {
      DomainFacts();
      hide Valid;
      var spent := RunSpent(runKey);
      tripped := spent + usd > runMax;
      if !tripped {
        HoldBudget(runKey, usd, now);
      }
    }

    method CheckLoopBudget(runKey: string, hash: string, usd: real, runMax: real, now: nat)
      returns (tripped: bool, budgetKey: string)
      requires Valid()
      modifies this`scopes, this`owner, this`contents, this`loops, owner.Keys
      ensures Valid() && fresh(owner.Keys - old(owner).Keys)
      ensures (View(), tripped, budgetKey) == FirewallSpec.CheckLoopBudget(old(View()), cfg, runKey, hash, usd, runMax, now)
    {
      DomainFacts();
      hide Valid, FirewallSpec.LoopChecked;
      tripped := LoopChecked(runKey, hash, now);
      budgetKey := "";
      if !tripped && runKey != "" && runMax > 0.0 {
        tripped := CheckBudget(runKey, usd, runMax, now);
        budgetKey := if tripped then "" else runKey;
      }
    }

    method Unreserve(budgetKey: string, usd: real)
      requires Valid()
      modifies this`contents, owner.Keys
      ensures Valid() && contents == Unreserved(old(View()), budgetKey, usd).scopes
    {
      DomainFacts();
      hide Valid;
      if budgetKey == "" || budgetKey !in scopes {
        return;
      }
      ScopeFacts(budgetKey);
      var left := scopes[budgetKey].runUSD - usd;
      if left < 0.0 {
        left := 0.0;
      }
      SetRunUSD(budgetKey, left, scopes[budgetKey].billed);
    }

    // ---- admission ---------------------------------------------------------------------------------

    /** The checks and reservations made under the lock. */
    method EnterLocked(chain: seq<Scope>, runKey: string, hash: string, runMax: real, usd: real, tok: int, now: nat)
      returns (tripped: bool, verdict: Verdict)
      requires Valid()
      modifies this`scopes, this`owner, this`contents, this`loops, this`lastGC, kills, owner.Keys
      ensures Valid() && fresh(owner.Keys - old(owner).Keys)
      ensures (View(), tripped, verdict)
           == FirewallSpec.EnterLocked(old(View()), cfg, chain, runKey, hash, runMax, usd, tok, now)
    {
      DomainFacts();
      hide Valid;
      GC(now);
      DomainFacts();
      var budgetKey;
      tripped, budgetKey := CheckLoopBudget(runKey, hash, usd, runMax, now);
      if tripped {
        return true, Denied(Killed);
      }
      DomainFacts();
      var denied := CheckReserve(chain, usd, tok, now);
      DomainFacts();
      if denied.Some? {
        Unreserve(budgetKey, usd);
        return false, Denied(denied.value);
      }
      return false, Admitted(Ticket(ScopeKeys(chain), budgetKey, usd, tok, Unix(now), false, false));
    }

    // ---- the parts of admission that stay local when a shared store is configured ---------------------

    /** Loop detection and the run budget only. */
    method ReserveLocal(runKey: string, hash: string, usd: real, runMax: real, now: nat)
      returns (tripped: bool, budgetKey: string)
      requires Valid()
      modifies this`scopes, this`owner, this`contents, this`loops, this`lastGC, kills, owner.Keys
      ensures Valid() && fresh(owner.Keys - old(owner).Keys)
      ensures (View(), tripped, budgetKey) ==
              FirewallSpec.CheckLoopBudget(FirewallSpec.GC(old(View()), cfg, now), cfg, runKey, hash, usd, runMax, now)
    {
      DomainFacts();
      hide Valid;
      GC(now);
      DomainFacts();
      tripped, budgetKey := CheckLoopBudget(runKey, hash, usd, runMax, now);
    }

    /** The fallback while the store is unreachable: velocity and concurrency here, and the run
        budget rolled back when they deny. */
    method ReserveScopesLocal(chain: seq<Scope>, budgetKey: string, usd: real, tok: int, now: nat)
      returns (denied: Option<Denial>)
      requires Valid()
      modifies this`scopes, this`owner, this`contents, owner.Keys
      ensures Valid() && fresh(owner.Keys - old(owner).Keys)
      ensures var (f, why) := FirewallSpec.CheckReserve(old(View()), chain, usd, tok, now);
              denied == why && View() == if why.Some? then Unreserved(f, budgetKey, usd) else f
    {
      DomainFacts();
      hide Valid;
      denied := CheckReserve(chain, usd, tok, now);
      DomainFacts();
      if denied.Some? {
        Unreserve(budgetKey, usd);
      }
    }

    /** The kill check: this instance's kill map, or what the shared store answered. */
    method IsKilled(runKey: string, remote: bool, now: nat) returns (killed: bool)
      requires Valid()
      modifies kills
      ensures Valid() && (View(), killed) == FirewallSpec.IsKilled(old(View()), cfg, runKey, remote, now)
    {
      DomainFacts();
      killed := false;
      if runKey != "" {
        hide Valid;
        var local := kills.Killed(runKey, now);
        killed := local || remote;
        ScopesUntouched();
      }
    }

    method DoKill(runKey: string, now: nat) returns (ok: bool)
      requires Valid()
      modifies kills
      ensures Valid() && View() == FirewallSpec.DoKill(old(View()), cfg, runKey, now)
      ensures ok == KillStep(old(View()).kills, cfg.kill, runKey, now).1
    {
      DomainFacts();
      hide Valid;
      ok := kills.Kill(runKey, now);
      ScopesUntouched();
    }

    method EnterCore(chain: seq<Scope>, runKey: string, hash: string, runMax: real, estUSD: real, estTok: int,
                     remote: bool, now: nat) returns (verdict: Verdict)
      requires Valid()
      modifies this`scopes, this`owner, this`contents, this`loops, this`lastGC, kills, owner.Keys
      ensures Valid() && fresh(owner.Keys - old(owner).Keys)
      ensures (View(), verdict)
           == FirewallSpec.EnterCore(old(View()), cfg, chain, runKey, hash, runMax, estUSD, estTok, remote, now)
    {
      DomainFacts();
      hide Valid;
      var usd, tok := estUSD, estTok;
      if usd < 0.0 {
        usd := 0.0;
      }
      if tok < 0 {
        tok := 0;
      }
      var killed := IsKilled(runKey, remote, now);
      if killed {
        return Denied(Killed);
      }
      var tripped;
      tripped, verdict := EnterLocked(chain, runKey, hash, runMax, usd, tok, now);
      if tripped {
        DomainFacts();
        var _ := DoKill(runKey, now);
        return Denied(Killed);
      }
    }

    /** The built-in gate: the authenticated client and, if given, its run. */
    method Enter(client: string, runID: string, hash: string, estUSD: real, estTok: int, remote: bool, now: nat)
      returns (verdict: Verdict)
      requires Valid()
      modifies this`scopes, this`owner, this`contents, this`loops, this`lastGC, kills, owner.Keys
      ensures Valid() && fresh(owner.Keys - old(owner).Keys)
      ensures (View(), verdict)
           == FirewallSpec.Enter(old(View()), cfg, Flat(client, runID), hash, estUSD, estTok, remote, now)
    {
      hide Valid;
      if !cfg.enabled {
        return Admitted(InertTicket);
      }
      var chain := [];
      if client != "" {
        chain := chain + [Scope("key", Keys.FlatClientKey(client), cfg.limits)];
      }
      var runKey := Keys.FlatRunKey(client, runID);
      if runKey != "" {
        chain := chain + [Scope("run", runKey, cfg.limits)];
      }
      assert chain == FlatScopes(cfg, client, runID);
      verdict := EnterCore(chain, runKey, hash, cfg.limits.usdPerRun, estUSD, estTok, remote, now);
    }

    /** Reads a chain once: its run key and run cap, and whether it is well formed. */
    method InspectChain(chain: seq<Scope>) returns (ok: bool, runKey: string, runMax: real)
      ensures ok == WellFormedChain(chain)
      ensures ok ==> runKey == TargetRunKey(Chain(chain)) && runMax == TargetRunMax(cfg, Chain(chain))
    {
      runKey, runMax := "", 0.0;
      var runs := 0;
      for i := 0 to |chain|
        invariant forall sc :: sc in chain[..i] ==> sc.key != "" && |sc.key| <= MAX_KEY_LEN
        invariant runs == |RunScopes(chain[..i])|
        invariant runKey == TargetRunKey(Chain(chain[..i])) && runMax == TargetRunMax(cfg, Chain(chain[..i]))
      {
        var sc := chain[i];
        assert chain[..i + 1][..i] == chain[..i];
        if sc.key == "" || |sc.key| > MAX_KEY_LEN {
          assert sc in chain;
          return false, "", 0.0;
        }
        if sc.name == "run" {
          runs := runs + 1;
          runKey := sc.key;
          runMax := sc.limits.usdPerRun;
        }
      }
      assert chain[..|chain|] == chain;
      ok := runs <= 1;
    }

    /** The gate for a resolved policy chain. */
    method EnterChain(chain: seq<Scope>, hash: string, estUSD: real, estTok: int, remote: bool, now: nat)
      returns (verdict: Verdict)
      requires Valid()
      modifies this`scopes, this`owner, this`contents, this`loops, this`lastGC, kills, owner.Keys
      ensures Valid() && fresh(owner.Keys - old(owner).Keys)
      ensures (View(), verdict)
           == FirewallSpec.Enter(old(View()), cfg, Chain(chain), hash, estUSD, estTok, remote, now)
    {
      if !cfg.enabled {
        return Admitted(InertTicket);
      }
      var ok, runKey, runMax := InspectChain(chain);
      if !ok {
        return Denied(BadChain);
      }
      hide Valid;
      verdict := EnterCore(chain, runKey, hash, runMax, estUSD, estTok, remote, now);
    }

    // ---- reconciliation ------------------------------------------------------------------------------

    method BookAll(keys: seq<string>, sec: nat, dUSD: real, dTok: int)
      requires Valid()
      modifies this`contents, owner.Keys
      ensures Valid() && View() == FirewallSpec.BookAll(old(View()), keys, sec, dUSD, dTok)
    {
      DomainFacts();
      hide Valid;
      for i := 0 to |keys|
        invariant Valid()
        invariant FirewallSpec.BookAll(old(View()), keys, sec, dUSD, dTok)
               == FirewallSpec.BookAll(old(View()).(scopes := contents), keys[i..], sec, dUSD, dTok)
      {
        DomainFacts();
        assert keys[i..][1..] == keys[i + 1..];
        if keys[i] in scopes {
          ScopeFacts(keys[i]);
          AddTo(keys[i], sec, dUSD, dTok);
        }
      }
      assert keys[|keys|..] == [];
    }

    method FreeOne(k: string, unbook: bool, usd: real, tok: int, sec: nat)
      requires Valid() && k in scopes
      modifies this`contents, scopes[k].Objects()
      ensures Valid() && contents == old(contents)[k := Freed(old(contents)[k], unbook, usd, tok, sec)]
    {
      ScopeFacts(k);
      hide Valid, ScopeState.Valid;
      scopes[k].Free(unbook, usd, tok, sec);
      contents := contents[k := Freed(contents[k], unbook, usd, tok, sec)];
      OneChanged(k);
    }

    method ReleaseAll(keys: seq<string>, unbook: bool, usd: real, tok: int, sec: nat)
      requires Valid()
      modifies this`contents, owner.Keys
      ensures Valid() && View() == FirewallSpec.ReleaseAll(old(View()), keys, unbook, usd, tok, sec)
    {
      DomainFacts();
      hide Valid;
      for i := 0 to |keys|
        invariant Valid()
        invariant FirewallSpec.ReleaseAll(old(View()), keys, unbook, usd, tok, sec)
               == FirewallSpec.ReleaseAll(old(View()).(scopes := contents), keys[i..], unbook, usd, tok, sec)
      {
        DomainFacts();
        assert keys[i..][1..] == keys[i + 1..];
        if keys[i] in scopes {
          ScopeFacts(keys[i]);
          FreeOne(keys[i], unbook, usd, tok, sec);
        }
      }
      assert keys[|keys|..] == [];
    }

    method SettleRun(runKey: string, est: real, usd: real)
      requires Valid() && runKey in scopes
      modifies this`contents, scopes[runKey].Objects()
      ensures Valid() && contents == old(contents)[runKey := SettledRun(old(contents)[runKey], est, usd)]
    {
      ScopeFacts(runKey);
      hide Valid, ScopeState.Valid;
      scopes[runKey].SettleRun(est, usd);
      contents := contents[runKey := SettledRun(contents[runKey], est, usd)];
      OneChanged(runKey);
    }

    method SettleBudget(runKey: string, est: real, usd: real)
      requires Valid()
      modifies this`contents, owner.Keys
      ensures Valid() && contents == FirewallSpec.SettleRun(old(View()), runKey, est, usd).scopes
    {
      DomainFacts();
      hide Valid;
      if runKey != "" && runKey in scopes {
        ScopeFacts(runKey);
        SettleRun(runKey, est, usd);
      }
    }
  }

  /** A reservation in a caller's hands. */
  class HeldTicket {
    const fw: Firewall
    const keys: seq<string>
    const runKey: string
    const usd: real
    const tok: int
    ghost const at: int
    var settled: bool
    var released: bool

    ghost function View(): Ticket
      reads this
    {
      Ticket(keys, runKey, usd, tok, at, settled, released)
    }

    constructor (fw: Firewall, t: Ticket)
      ensures View() == t && this.fw == fw
    {
      this.fw := fw;
      keys, runKey, usd, tok, at := t.keys, t.runKey, t.usd, t.tok, t.at;
      settled, released := t.settled, t.released;
    }

    method Settle(actualUSD: real, actualTok: int, now: nat)
      requires fw.Valid() && this !in fw.Footprint()
      modifies this`settled, fw`contents, fw.owner.Keys
      ensures fw.Valid()
      ensures var (f, t) := FirewallSpec.Settle(old(fw.View()), old(View()), actualUSD, actualTok, now);
              fw.View() == f && View() == t
    {
      fw.DomainFacts();
      hide Firewall.Valid;
      if settled || released {
        return;
      }
      settled := true;
      fw.Untouched();
      fw.BookAll(keys, Unix(now), actualUSD - usd, actualTok - tok);
      fw.DomainFacts();
      fw.SettleBudget(runKey, usd, actualUSD);
    }

    method Release(now: nat)
      requires fw.Valid() && this !in fw.Footprint()
      modifies this`released, fw`contents, fw.owner.Keys
      ensures fw.Valid()
      ensures (fw.View(), View()) == FirewallSpec.Release(old(fw.View()), old(View()), now)
    {
      fw.DomainFacts();
      hide Firewall.Valid;
      if released {
        return;
      }
      released := true;
      fw.Untouched();
      fw.ReleaseAll(keys, !settled, usd, tok, Unix(now));
      fw.DomainFacts();
      if !settled {
        fw.Unreserve(runKey, usd);
      }
    }
  }
}
