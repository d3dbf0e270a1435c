/** The shared store as its scripts run it: per-second hashes that are purged as they are read,
    hold sets that are reaped, and keys that expire as a whole. Every script is proved to
    do what SharedSpec says, although SharedSpec forgets nothing. */
module RedisStore {
  import opened WindowLog
  import opened SharedSpec

  // ---- one key ------------------------------------------------------------------------------------

  /** Field (a second) to value; the whole key goes at expireAt. */
  datatype Hash = Hash(fields: map<int, real>, expireAt: int)

  datatype ZSet = ZSet(members: Holds, expireAt: int)

  function At(fields: map<int, real>, s: int): real {
    if s in fields then fields[s] else 0.0
  }

  /** The fields of a key hold what the log says of the last minute, and the key outlives
      every field by more than the minute it counts in. */
  ghost predicate HashOf(h: Hash, log: Log, clock: int) {
    && (forall s :: s in h.fields ==> s <= clock && s + WINDOW < h.expireAt && h.fields[s] >= 0.0)
    && StampedUpTo(log, clock)
    && forall s {:trigger At(h.fields, s)} {:trigger Bucket(log, s)} :: clock - WINDOW < s ==> At(h.fields, s) == Bucket(log, s)
  }

  const NoHash := Hash(map[], 0)

  /** What a command sees of a key: an expired one is gone. */
  function Seen(h: Hash, now: int): Hash {
    if now < h.expireAt then h else NoHash
  }

  /** Key expiry never drops a second that still counts. */
  lemma ExpiryIsInvisible(h: Hash, log: Log, clock: int, now: int)
    requires HashOf(h, log, clock) && clock <= now
    ensures HashOf(h, log, now) && HashOf(Seen(h, now), log, now)
  {
    forall s {:trigger At(Seen(h, now).fields, s)} {:trigger Bucket(log, s)} | now - WINDOW < s
      ensures At(Seen(h, now).fields, s) == Bucket(log, s)
    {
      assert At(h.fields, s) == Bucket(log, s);
    }
  }

  /** Deleting a field older than the window changes nothing that counts. */
  lemma PurgeIsInvisible(h: Hash, log: Log, now: int, s: int)
    requires HashOf(h, log, now) && now - s >= WINDOW
    ensures HashOf(h.(fields := h.fields - {s}), log, now)
  {
    var f := h.fields - {s};
    forall t {:trigger At(f, t)} {:trigger Bucket(log, t)} | now - WINDOW < t
      ensures At(f, t) == Bucket(log, t)
    {
      assert At(h.fields, t) == Bucket(log, t);
    }
  }

  /** Adding to the current second, floored at zero, is one more entry in the log. */
  lemma IncrementIsAnEntry(h: Hash, log: Log, now: int, delta: real)
    requires HashOf(h, log, now)
    ensures HashOf(Hash(h.fields[now := Floor0(At(h.fields, now) + delta)], now + WINDOW + 1), log + [Entry(now, delta)], now)
  {
    var log' := log + [Entry(now, delta)];
    var f := h.fields[now := Floor0(At(h.fields, now) + delta)];
    forall t {:trigger At(f, t)} {:trigger Bucket(log', t)} | now - WINDOW < t
      ensures At(f, t) == Bucket(log', t)
    {
      BucketAppend(log, Entry(now, delta), t);
      assert At(h.fields, t) == Bucket(log, t);
    }
  }

  /** Total of the fields of n seconds from lo. */
  function FieldTotal(fields: map<int, real>, lo: int, n: nat): real {
    if n == 0 then 0.0 else FieldTotal(fields, lo, n - 1) + At(fields, lo + n - 1)
  }

  lemma {:induction false} FieldTotalInsert(fields: map<int, real>, s: int, v: real, lo: int, n: nat)
    requires s !in fields
    ensures FieldTotal(fields[s := v], lo, n) == FieldTotal(fields, lo, n) + if lo <= s < lo + n then v else 0.0
  {
    if n > 0 {
      FieldTotalInsert(fields, s, v, lo, n - 1);
    }
  }

  lemma {:induction false} FieldTotalOfNone(lo: int, n: nat)
    ensures FieldTotal(map[], lo, n) == 0.0
  {
    if n > 0 {
      FieldTotalOfNone(lo, n - 1);
    }
  }

  lemma {:induction false} FieldTotalIsTotal(h: Hash, log: Log, now: int, n: nat)
    requires HashOf(h, log, now) && n <= WINDOW
    ensures FieldTotal(h.fields, now - WINDOW + 1, n) == Total(log, now - WINDOW + 1, n)
  {
    if n > 0 {
      FieldTotalIsTotal(h, log, now, n - 1);
      assert At(h.fields, now - WINDOW + n) == Bucket(log, now - WINDOW + n);
    }
  }

  /** The members are the unexpired holds, perhaps with expired ones not yet reaped, and the
      key outlives every member. */
  ghost predicate ZSetOf(z: ZSet, h: Holds, clock: int) {
    && (forall id :: id in z.members ==> z.members[id] < z.expireAt)
    && (forall id :: id in z.members && z.members[id] > clock ==> id in h && h[id] == z.members[id])
    && (forall id :: id in h && h[id] > clock ==> id in z.members && z.members[id] == h[id])
  }

  const NoZSet := ZSet(map[], 0)

  function SeenSet(z: ZSet, now: int): ZSet {
    if now < z.expireAt then z else NoZSet
  }

  /** Key expiry never drops an unexpired hold. */
  lemma ExpiryKeepsHolds(z: ZSet, h: Holds, clock: int, now: int)
    requires ZSetOf(z, h, clock) && clock <= now
    ensures ZSetOf(z, h, now) && ZSetOf(SeenSet(z, now), h, now)
  {
  }

  function Reaped(members: Holds, now: int): Holds {
    map id | id in members && members[id] > now :: members[id]
  }

  lemma ReapKeepsLive(z: ZSet, h: Holds, now: int)
    requires ZSetOf(z, h, now)
    ensures ZSetOf(z.(members := Reaped(z.members, now)), h, now)
    ensures |Reaped(z.members, now)| == |LiveHolds(h, now)|
  {
    assert Reaped(z.members, now).Keys == LiveHolds(h, now);
  }

  /** That is so, at every later time, exactly when no member outlasts the key. The script sets
      the key's expiry from the newest hold alone, so it is so while all holds have one lifetime. */
  lemma KeyExpiryIsSafeIff(z: ZSet)
    ensures (forall now {:trigger SeenSet(z, now)} :: LiveHolds(SeenSet(z, now).members, now) == LiveHolds(z.members, now))
            <==> (forall id :: id in z.members ==> z.members[id] <= z.expireAt)
  {
    if forall now {:trigger SeenSet(z, now)} :: LiveHolds(SeenSet(z, now).members, now) == LiveHolds(z.members, now) {
      assert LiveHolds(SeenSet(z, z.expireAt).members, z.expireAt) == LiveHolds(z.members, z.expireAt);
      forall id | id in z.members
        ensures z.members[id] <= z.expireAt
      {
        assert id !in LiveHolds(NoZSet.members, z.expireAt);
      }
    }
  }

  lemma NotEmpty(todo: set<int>)
    requires todo != {}
    ensures exists s :: s in todo
  {
    assert (forall s :: s !in todo) ==> todo == {};
  }

  // ---- all keys ---------------------------------------------------------------------------------------

  function HashIn(vel: map<VelKey, Hash>, k: VelKey): Hash {
    if k in vel then vel[k] else NoHash
  }

  function SetIn(conc: map<string, ZSet>, k: string): ZSet {
    if k in conc then conc[k] else NoZSet
  }

  ghost predicate VelShows(vel: map<VelKey, Hash>, s: Shared, clock: int) {
    forall d, k {:trigger HashIn(vel, Vel(d, k))} {:trigger LogAt(s, d, k)} ::
      HashOf(HashIn(vel, Vel(d, k)), LogAt(s, d, k), clock)
  }

  ghost predicate ConcShows(conc: map<string, ZSet>, s: Shared, clock: int, ttl: int) {
    forall k {:trigger SetIn(conc, k)} {:trigger HoldsAt(s, k)} ::
      ZSetOf(SetIn(conc, k), HoldsAt(s, k), clock) && forall id :: id in HoldsAt(s, k) ==> HoldsAt(s, k)[id] <= clock + ttl
  }

  lemma VelBooked(vel: map<VelKey, Hash>, s: Shared, now: int, k: VelKey, h: Hash, delta: real)
    requires VelShows(vel, s, now) && HashOf(h, LogAt(s, k.d, k.scope) + [Entry(now, delta)], now)
    ensures VelShows(vel[k := h], Book(s, k.d, k.scope, now, delta), now)
  {
    var s' := Book(s, k.d, k.scope, now, delta);
    forall d, j {:trigger HashIn(vel[k := h], Vel(d, j))} {:trigger LogAt(s', d, j)}
      ensures HashOf(HashIn(vel[k := h], Vel(d, j)), LogAt(s', d, j), now)
    {
      if Vel(d, j) != k {
        assert HashIn(vel[k := h], Vel(d, j)) == HashIn(vel, Vel(d, j)) && LogAt(s', d, j) == LogAt(s, d, j);
      }
    }
  }

  lemma ConcUpdated(conc: map<string, ZSet>, s: Shared, s': Shared, now: int, ttl: int, k: string, z: ZSet)
    requires ConcShows(conc, s, now, ttl) && forall j :: j != k ==> HoldsAt(s', j) == HoldsAt(s, j)
    requires ZSetOf(z, HoldsAt(s', k), now) && forall id :: id in HoldsAt(s', k) ==> HoldsAt(s', k)[id] <= now + ttl
    ensures ConcShows(conc[k := z], s', now, ttl)
  {
    forall j {:trigger SetIn(conc[k := z], j)} {:trigger HoldsAt(s', j)}
      ensures ZSetOf(SetIn(conc[k := z], j), HoldsAt(s', j), now)
      ensures forall id :: id in HoldsAt(s', j) ==> HoldsAt(s', j)[id] <= now + ttl
    {
      assert j != k ==> SetIn(conc[k := z], j) == SetIn(conc, j);
    }
  }

  // ---- the store -------------------------------------------------------------------------------------

  class Redis {
    const ttl: nat
    var vel: map<VelKey, Hash>
    var conc: map<string, ZSet>
    /** The store with nothing forgotten, and the latest second any script ran in. */
    ghost var spec: Shared
    ghost var clock: int

    ghost predicate Valid()
      reads this
    {
      VelShows(vel, spec, clock) && ConcShows(conc, spec, clock, ttl)
    }

    constructor (ttl: nat)
      ensures Valid() && spec == EmptyShared && clock == 0 && this.ttl == ttl
    {
      this.ttl := ttl;
      vel, conc, spec, clock := map[], map[], EmptyShared, 0;
    }

    ghost method Tick(now: int)
      requires Valid() && clock <= now
      modifies this`clock
      ensures Valid() && clock == now
    {
      clock := now;
    }

    // ---- commands ---------------------------------------------------------------------------------------

    method HGetAll(k: VelKey, now: int) returns (h: Hash)
      requires Valid() && clock == now
      modifies this`vel
      ensures Valid() && HashIn(vel, k) == h && HashOf(h, LogAt(spec, k.d, k.scope), now)
    {
      h := Seen(HashIn(vel, k), now);
      ExpiryIsInvisible(HashIn(vel, k), LogAt(spec, k.d, k.scope), clock, now);
      vel := vel[k := h];
    }

    method HDel(k: VelKey, s: int, now: int)
      requires Valid() && clock == now && now - s >= WINDOW
      modifies this`vel
      ensures Valid()
    {
      var h := HashIn(vel, k);
      PurgeIsInvisible(h, LogAt(spec, k.d, k.scope), now, s);
      vel := vel[k := h.(fields := h.fields - {s})];
    }

    /** HINCRBY or HINCRBYFLOAT of the current second, the floor where the script has one, and
        EXPIRE. */
    method Increment(k: VelKey, now: int, delta: real, floor: bool)
      requires Valid() && clock == now && (floor || delta >= 0.0)
      modifies this`vel, this`spec
      ensures Valid() && spec == Book(old(spec), k.d, k.scope, now, delta)
    {
      var h := HGetAll(k, now);
      var v := At(h.fields, now) + delta;
      if floor && v < 0.0 {
        v := 0.0;
      }
      h := Hash(h.fields[now := v], now + WINDOW + 1);
      IncrementIsAnEntry(HashIn(vel, k), LogAt(spec, k.d, k.scope), now, delta);
      VelBooked(vel, spec, now, k, h, delta);
      vel := vel[k := h];
      spec := Book(spec, k.d, k.scope, now, delta);
    }

    /** ZREMRANGEBYSCORE up to now, then ZCARD. */
    method ReapAndCount(k: string, now: int) returns (n: nat)
      requires Valid() && clock == now
      modifies this`conc
      ensures Valid() && n == |Live(spec, k, now)|
    {
      var z := SeenSet(SetIn(conc, k), now);
      ExpiryKeepsHolds(SetIn(conc, k), HoldsAt(spec, k), clock, now);
      ReapKeepsLive(z, HoldsAt(spec, k), now);
      z := z.(members := Reaped(z.members, now));
      ConcUpdated(conc, spec, spec, now, ttl, k, z);
      conc := conc[k := z];
      n := |z.members|;
    }

    /** ZADD, and EXPIRE of the whole set. */
    method ZAdd(k: string, id: string, now: int)
      requires Valid() && clock == now
      modifies this`conc, this`spec
      ensures Valid() && spec == AddHold(old(spec), k, id, now + ttl)
    {
      var z := SeenSet(SetIn(conc, k), now);
      ExpiryKeepsHolds(SetIn(conc, k), HoldsAt(spec, k), clock, now);
      z := ZSet(z.members[id := now + ttl], now + ttl + 1);
      ConcUpdated(conc, spec, AddHold(spec, k, id, now + ttl), now, ttl, k, z);
      conc := conc[k := z];
      spec := AddHold(spec, k, id, now + ttl);
    }

    method ZRem(k: string, id: string)
      requires Valid()
      modifies this`conc, this`spec
      ensures Valid() && spec == FreeOne(old(spec), k, id)
    {
      var z := SetIn(conc, k);
      z := z.(members := z.members - {id});
      ConcUpdated(conc, spec, FreeOne(spec, k, id), clock, ttl, k, z);
      conc := conc[k := z];
      spec := FreeOne(spec, k, id);
    }

    // ---- scripts ----------------------------------------------------------------------------------------

    /** Sums the fields of the last minute and deletes the older ones. */
    method SumAndPurge(k: VelKey, now: int) returns (sum: real)
      requires Valid() && clock == now
      modifies this`vel
      ensures Valid() && sum == Used(spec, k.d, k.scope, now)
    {
      var all := HGetAll(k, now);
      ghost var lo, read := now - WINDOW + 1, map[];
      var todo := all.fields.Keys;
      sum := 0.0;
      FieldTotalOfNone(lo, WINDOW);
      while todo != {}
        invariant Valid() && todo <= all.fields.Keys
        invariant read == map s | s in all.fields && s !in todo :: all.fields[s]
        invariant sum == FieldTotal(read, lo, WINDOW)
      {
        NotEmpty(todo);
        var s :| s in todo;
        FieldTotalInsert(read, s, all.fields[s], lo, WINDOW);
        todo := todo - {s};
        read := read[s := all.fields[s]];
        if now - s < WINDOW {
          sum := sum + all.fields[s];
        } else {
          HDel(k, s, now);
        }
      }
      assert read == all.fields;
      FieldTotalIsTotal(all, LogAt(spec, k.d, k.scope), now, WINDOW);
    }

    method CheckScope(c: Cap, usd: real, tok: int, now: int) returns (a: Answer)
      requires Valid() && clock == now
      modifies this`vel, this`conc
      ensures Valid() && a == CheckOne(spec, c, usd, tok, now)
    {
      if c.usd > 0.0 {
        var sum := SumAndPurge(Vel(Dollars, c.key), now);
        if sum + usd > c.usd {
          return Breach(c.name, false);
        }
      }
      if c.tok > 0 {
        var sum := SumAndPurge(Vel(Tokens, c.key), now);
        if sum + tok as real > c.tok as real {
          return Breach(c.name, false);
        }
      }
      if c.conc > 0 {
        var n := ReapAndCount(c.key, now);
        if n >= c.conc {
          return Breach(c.name, true);
        }
      }
      return Answer.Reserved;
    }

    method ReserveScope(c: Cap, usd: real, tok: int, id: string, now: int)
      requires Valid() && clock == now && usd >= 0.0 && tok >= 0
      modifies this`vel, this`conc, this`spec
      ensures Valid() && spec == ReserveOne(old(spec), c, usd, tok, id, now, ttl)
    {
      if c.usd > 0.0 {
        Increment(Vel(Dollars, c.key), now, usd, false);
      }
      if c.tok > 0 {
        Increment(Vel(Tokens, c.key), now, tok as real, false);
      }
      if c.conc > 0 {
        ZAdd(c.key, id, now);
      }
    }

    /** The reserve script: check every scope, then reserve every scope. */
    method Reserve(caps: seq<Cap>, usd: real, tok: int, id: string, now: int) returns (a: Answer)
      requires Valid() && clock <= now && usd >= 0.0 && tok >= 0
      modifies this
      ensures Valid() && clock == now
      ensures (spec, a) == SharedSpec.Reserve(old(spec), caps, usd, tok, id, now, ttl)
    {
      Tick(now);
      for i := 0 to |caps|
        invariant Valid() && clock == now && spec == old(spec)
        invariant CheckAll(spec, caps, usd, tok, now) == CheckAll(spec, caps[i..], usd, tok, now)
      {
        assert caps[i..][1..] == caps[i + 1..];
        a := CheckScope(caps[i], usd, tok, now);
        if a.Breach? {
          return;
        }
      }
      for i := 0 to |caps|
        invariant Valid() && clock == now
        invariant ReserveAll(old(spec), caps, usd, tok, id, now, ttl) == ReserveAll(spec, caps[i..], usd, tok, id, now, ttl)
      {
        assert caps[i..][1..] == caps[i + 1..];
        ReserveScope(caps[i], usd, tok, id, now);
      }
      a := Answer.Reserved;
    }

    /** The adjust script. */
    method Adjust(ks: seq<string>, dUSD: real, dTok: int, now: int)
      requires Valid() && clock <= now
      modifies this
      ensures Valid() && clock == now && spec == SharedSpec.Adjust(old(spec), ks, dUSD, dTok, now)
    {
      Tick(now);
      for i := 0 to |ks|
        invariant Valid() && clock == now
        invariant SharedSpec.Adjust(old(spec), ks, dUSD, dTok, now) == SharedSpec.Adjust(spec, ks[i..], dUSD, dTok, now)
      {
        assert ks[i..][1..] == ks[i + 1..];
        if dUSD != 0.0 {
          Increment(Vel(Dollars, ks[i]), now, dUSD, true);
        }
        if dTok != 0 {
          Increment(Vel(Tokens, ks[i]), now, dTok as real, true);
        }
      }
    }

    /** The release script: the hold leaves every set. */
    method FreeHolds(ks: seq<string>, id: string)
      requires Valid()
      modifies this`conc, this`spec
      ensures Valid() && spec == SharedSpec.FreeHolds(old(spec), ks, id)
    {
      for i := 0 to |ks|
        invariant Valid()
        invariant SharedSpec.FreeHolds(old(spec), ks, id) == SharedSpec.FreeHolds(spec, ks[i..], id)
      {
        assert ks[i..][1..] == ks[i + 1..];
        ZRem(ks[i], id);
      }
    }

    method Release(ks: seq<string>, id: string, usd: real, tok: int, settled: bool, now: int)
      requires Valid() && clock <= now
      modifies this
      ensures Valid() && spec == SharedSpec.Release(old(spec), ks, id, usd, tok, settled, now)
    {
      FreeHolds(ks, id);
      if !settled && !(usd == 0.0 && tok == 0) {
        Adjust(ks, -usd, -tok, now);
      } else if !settled {
        NothingToAdjust(spec, ks, now);
      }
    }
  }

  lemma {:induction false} NothingToAdjust(s: Shared, ks: seq<string>, now: int)
    ensures SharedSpec.Adjust(s, ks, 0.0, 0, now) == s
    decreases |ks|
  {
    if ks != [] {
      NothingToAdjust(s, ks[1..], now);
    }
  }
}
