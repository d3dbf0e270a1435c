/** What the shared store computes, with nothing ever purged: a log per scope and dimension,
    and every concurrency hold with its expiry. Module RedisStore is proved to implement it. */
module SharedSpec {
  import opened WindowLog
  import Keys

  datatype VelKey = Vel(d: Dim, scope: string)

  /** Hold id to the second it expires at. */
  type Holds = map<string, int>

  datatype Shared = Shared(logs: map<VelKey, Log>, holds: map<string, Holds>)

  const EmptyShared := Shared(map[], map[])

  /** How a call to the store ends; a lost one may still have taken effect. */
  datatype Fault = NoFault | LostBefore | LostAfter

  const HOLD_TTL_FLOOR: int := 300

  /** SetHoldTTL: a lifetime below the floor is ignored. */
  function HoldTTL(current: int, seconds: int): (r: int)
    ensures current >= 300 ==> r >= 300 && r >= seconds
    ensures r == seconds || (r == current && seconds <= 300)
  {
    if seconds > HOLD_TTL_FLOOR then seconds else current
  }

  function LogAt(s: Shared, d: Dim, k: string): Log {
    if Vel(d, k) in s.logs then s.logs[Vel(d, k)] else []
  }

  function HoldsAt(s: Shared, k: string): Holds {
    if k in s.holds then s.holds[k] else map[]
  }

  function Used(s: Shared, d: Dim, k: string, now: int): real {
    WindowSum(LogAt(s, d, k), now)
  }

  function LiveHolds(h: Holds, now: int): set<string> {
    set id | id in h && h[id] > now
  }

  /** The holds of a scope that have not expired. */
  function Live(s: Shared, k: string, now: int): set<string> {
    LiveHolds(HoldsAt(s, k), now)
  }

  /** Hold ids and reservation nonces are never reused. */
  function HoldID(i: nat): string {
    Keys.Itoa(i)
  }

  /** One scope of a reservation and its caps; 0 disables a cap. */
  datatype Cap = Cap(key: string, name: string, usd: real, tok: int, conc: int)

  datatype Answer = Reserved | Breach(scope: string, concurrency: bool)

  function CheckOne(s: Shared, c: Cap, usd: real, tok: int, now: int): Answer {
    if c.usd > 0.0 && Used(s, Dollars, c.key, now) + usd > c.usd then Breach(c.name, false)
    else if c.tok > 0 && Used(s, Tokens, c.key, now) + tok as real > c.tok as real then Breach(c.name, false)
    else if c.conc > 0 && |Live(s, c.key, now)| >= c.conc then Breach(c.name, true)
    else Reserved
  }

  /** Scope by scope, stopping at the first breach. */
  function CheckAll(s: Shared, caps: seq<Cap>, usd: real, tok: int, now: int): Answer {
    if caps == [] then Reserved
    else
      var a := CheckOne(s, caps[0], usd, tok, now);
      if a.Breach? then a else CheckAll(s, caps[1..], usd, tok, now)
  }

  function Book(s: Shared, d: Dim, k: string, now: int, delta: real): Shared {
    s.(logs := s.logs[Vel(d, k) := LogAt(s, d, k) + [Entry(now, delta)]])
  }

  function AddHold(s: Shared, k: string, id: string, expiry: int): Shared {
    s.(holds := s.holds[k := HoldsAt(s, k)[id := expiry]])
  }

  function ReserveOne(s: Shared, c: Cap, usd: real, tok: int, id: string, now: int, ttl: int): Shared {
    var s1 := if c.usd > 0.0 then Book(s, Dollars, c.key, now, usd) else s;
    var s2 := if c.tok > 0 then Book(s1, Tokens, c.key, now, tok as real) else s1;
    if c.conc > 0 then AddHold(s2, c.key, id, now + ttl) else s2
  }

  function ReserveAll(s: Shared, caps: seq<Cap>, usd: real, tok: int, id: string, now: int, ttl: int): Shared
    decreases |caps|
  {
    if caps == [] then s else ReserveAll(ReserveOne(s, caps[0], usd, tok, id, now, ttl), caps[1..], usd, tok, id, now, ttl)
  }

  /** One atomic step: all scopes are reserved or none is. */
  function Reserve(s: Shared, caps: seq<Cap>, usd: real, tok: int, id: string, now: int, ttl: int): (r: (Shared, Answer)) {
    var a := CheckAll(s, caps, usd, tok, now);
    if a.Breach? then (s, a) else (ReserveAll(s, caps, usd, tok, id, now, ttl), a)
  }

  function AdjustOne(s: Shared, k: string, dUSD: real, dTok: int, now: int): Shared {
    var s1 := if dUSD != 0.0 then Book(s, Dollars, k, now, dUSD) else s;
    if dTok != 0 then Book(s1, Tokens, k, now, dTok as real) else s1
  }

  /** The signed difference goes into the current second; zero differences are skipped. */
  function Adjust(s: Shared, ks: seq<string>, dUSD: real, dTok: int, now: int): Shared
    decreases |ks|
  {
    if ks == [] then s else Adjust(AdjustOne(s, ks[0], dUSD, dTok, now), ks[1..], dUSD, dTok, now)
  }

  function FreeOne(s: Shared, k: string, id: string): Shared {
    s.(holds := s.holds[k := HoldsAt(s, k) - {id}])
  }

  function FreeHolds(s: Shared, ks: seq<string>, id: string): Shared
    decreases |ks|
  {
    if ks == [] then s else FreeHolds(FreeOne(s, ks[0], id), ks[1..], id)
  }

  /** Release when both scripts run: the holds go, and the estimate of a request that never
      settled is taken back. */
  function Release(s: Shared, ks: seq<string>, id: string, usd: real, tok: int, settled: bool, now: int): Shared {
    var s1 := FreeHolds(s, ks, id);
    if settled then s1 else Adjust(s1, ks, -usd, -tok, now)
  }
}
