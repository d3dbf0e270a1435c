/** The bounded, self-expiring run-kill map of one instance. */
module KillStore {
  datatype KillVal = KillVal(m: map<string, int>, rejected: nat)

  const NoKills := KillVal(map[], 0)

  /** Kill-store parameters: how long a kill is remembered, and how many are held at once. */
  datatype KillConfig = KillConfig(ttl: int, cap: nat)

  function Swept(s: KillVal, cfg: KillConfig, now: int): KillVal {
    s.(m := map k | k in s.m && now - s.m[k] <= cfg.ttl :: s.m[k])
  }

  /** Kill(run): a tracked run is refreshed; a new one is refused only when the map is full
      of live kills. */
  function KillStep(s: KillVal, cfg: KillConfig, run: string, now: int): (r: (KillVal, bool)) {
    if run !in s.m && |s.m| >= cfg.cap then
      var g := Swept(s, cfg, now);
      if |g.m| >= cfg.cap then (g.(rejected := g.rejected + 1), false)
      else (g.(m := g.m[run := now]), true)
    else (s.(m := s.m[run := now]), true)
  }

  /** Killed(run): a live kill is refreshed by being asked about; an expired one is dropped. */
  function KilledStep(s: KillVal, cfg: KillConfig, run: string, now: int): (r: (KillVal, bool)) {
    if run !in s.m then (s, false)
    else if now - s.m[run] > cfg.ttl then (s.(m := s.m - {run}), false)
    else (s.(m := s.m[run := now]), true)
  }

  lemma SubsetSize<T>(a: set<T>, b: set<T>)
    requires a <= b
    ensures |a| <= |b|
  {
    assert b == a + (b - a);
  }

  lemma SweptNotLarger(s: KillVal, cfg: KillConfig, now: int)
    ensures |Swept(s, cfg, now).m| <= |s.m|
  {
    var g := Swept(s, cfg, now);
    assert g.m.Keys <= s.m.Keys;
    SubsetSize(g.m.Keys, s.m.Keys);
  }

  lemma InsertSize(m: map<string, int>, run: string, now: int)
    ensures |m[run := now]| == if run in m then |m| else |m| + 1
  {
    assert m[run := now].Keys == m.Keys + {run};
    if run in m {
      assert m.Keys + {run} == m.Keys;
    }
  }

  /** The map never grows past its cap. */
  lemma CapKept(s: KillVal, cfg: KillConfig, run: string, now: int)
    requires |s.m| <= cfg.cap
    ensures |KillStep(s, cfg, run, now).0.m| <= cfg.cap
    ensures |KilledStep(s, cfg, run, now).0.m| <= cfg.cap
    ensures |Swept(s, cfg, now).m| <= cfg.cap
  {
    SweptNotLarger(s, cfg, now);
    InsertSize(Swept(s, cfg, now).m, run, now);
    InsertSize(s.m, run, now);
    SubsetSize((s.m - {run}).Keys, s.m.Keys);
  }

  /** A kill is refused only while the map holds cap kills that are all still live. */
  lemma RefusedOnlyWhenFullOfLiveKills(s: KillVal, cfg: KillConfig, run: string, now: int)
    requires |s.m| <= cfg.cap
    ensures !KillStep(s, cfg, run, now).1 <==>
            run !in s.m && |s.m| == cfg.cap && forall k :: k in s.m ==> now - s.m[k] <= cfg.ttl
    ensures var (g, ok) := KillStep(s, cfg, run, now);
            g.rejected == s.rejected + (if ok then 0 else 1) && (!ok ==> g.m == s.m)
  {
    var g := Swept(s, cfg, now);
    SweptNotLarger(s, cfg, now);
    if forall k :: k in s.m ==> now - s.m[k] <= cfg.ttl {
      assert g.m == s.m;
    } else {
      var k :| k in s.m && now - s.m[k] > cfg.ttl;
      assert g.m.Keys <= s.m.Keys - {k};
      SubsetSize(g.m.Keys, s.m.Keys - {k});
    }
  }

  class MemKillStore {
    const cfg: KillConfig
    var m: map<string, int>
    var rejected: nat

    ghost function View(): KillVal
      reads this
    {
      KillVal(m, rejected)
    }

    constructor (cfg: KillConfig)
      ensures View() == NoKills && this.cfg == cfg
    {
      this.cfg := cfg;
      m, rejected := map[], 0;
    }

    method GC(now: int)
      modifies this
      ensures View() == Swept(old(View()), cfg, now)
    {
      var todo := m.Keys;
      while todo != {}
        invariant todo <= old(m).Keys && rejected == old(rejected)
        invariant m == map k | k in old(m) && (k in todo || now - old(m)[k] <= cfg.ttl) :: old(m)[k]
      {
        var k :| k in todo;
        todo := todo - {k};
        if now - m[k] > cfg.ttl {
          m := m - {k};
        }
      }
    }

    method Kill(runKey: string, now: int) returns (ok: bool)
      modifies this
      ensures (View(), ok) == KillStep(old(View()), cfg, runKey, now)
    {
      if runKey !in m && |m| >= cfg.cap {
        GC(now);
        if |m| >= cfg.cap {
          rejected := rejected + 1;
          return false;
        }
      }
      m := m[runKey := now];
      return true;
    }

    method Killed(runKey: string, now: int) returns (killed: bool)
      modifies this
      ensures (View(), killed) == KilledStep(old(View()), cfg, runKey, now)
    {
      if runKey !in m {
        return false;
      }
      var t := m[runKey];
      if now - t > cfg.ttl {
        m := m - {runKey};
        return false;
      }
      m := m[runKey := now];
      return true;
    }
  }
}
