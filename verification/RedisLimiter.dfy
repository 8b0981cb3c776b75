/**
  The Redis limiter with its memory fallback, and the per-user middleware that drives it.

  Each Redis command may fail on its own: INCR before or after taking effect, EXPIRE, TTL. A failed
  INCR sends the request to the memory limiter of this process.
 */
module RedisLimiter {
  import opened Common
  import opened RateLimit

  /** A Redis counter; without an expiry it stays for ever. */
  datatype Counter = Counter(count: nat, expiry: Option<nat>)

  /** `IncrLost`: the command took effect but its reply did not arrive. */
  datatype IncrFault = IncrOk | IncrFailed | IncrLost

  datatype Faults = Faults(incr: IncrFault, expireFails: bool, ttlFails: bool)

  datatype Store = Store(counters: map<Key, Counter>, fallback: map<Key, Entry>)

  predicate Counts(cs: map<Key, Counter>, now: nat, key: Key) {
    key in cs && (cs[key].expiry.Some? ==> now < cs[key].expiry.value)
  }

  /** INCR: an absent or expired key starts again at 1 and has no expiry. */
  function Incr(cs: map<Key, Counter>, now: nat, key: Key): Counter {
    if Counts(cs, now, key) then Counter(cs[key].count + 1, cs[key].expiry) else Counter(1, None)
  }

  /** EXPIRE: a duration that is not positive deletes the key. */
  function Expire(cs: map<Key, Counter>, now: nat, key: Key, window: int): map<Key, Counter>
    requires key in cs
  {
    if window <= 0 then cs - {key} else cs[key := cs[key].(expiry := Some(now + window))]
  }

  /** The counters after INCR and, on the first hit, EXPIRE. */
  function Hit(c: Config, cs: map<Key, Counter>, now: nat, key: Key, expireFails: bool): map<Key, Counter> {
    var k := Incr(cs, now, key);
    if k.count == 1 && !expireFails then Expire(cs[key := k], now, key, c.window) else cs[key := k]
  }

  /** From the TTL of the key, or from the clock when there is none to be had. */
  function RetryHint(c: Config, cs: map<Key, Counter>, now: nat, key: Key, ttlFails: bool): (r: nat)
    ensures 0 < r && r % SECOND == 0
    ensures !ttlFails && key in cs && cs[key].expiry.Some? && now < cs[key].expiry.value ==>
      r - SECOND < cs[key].expiry.value - now <= r
    ensures var ws := WholeSeconds(c.window);
      (ttlFails || key !in cs || cs[key].expiry.None? || cs[key].expiry.value <= now) && ws > 0 ==>
        r <= ws * SECOND && now / SECOND + r / SECOND == (now / SECOND / ws + 1) * ws
  {
    if ttlFails || key !in cs || cs[key].expiry.None? || cs[key].expiry.value <= now
    then RemainingDuration(c.window, now)
    else CeilDuration(cs[key].expiry.value - now)
  }

  /** `c` configures the Redis limiter, `fc` its fallback. */
  function AllowVia(c: Config, fc: Config, st: Store, now: nat, key: Key, f: Faults): (Store, Verdict) {
    if Unlimited(c, key) then (st, Verdict(true, 0))
    else if f.incr.IncrOk? then
      var cs := Hit(c, st.counters, now, key, f.expireFails);
      (st.(counters := cs),
       if Incr(st.counters, now, key).count > c.limit then Verdict(false, RetryHint(c, cs, now, key, f.ttlFails))
         else Verdict(true, 0))
    else
      var (es, v) := AllowIn(fc, st.fallback, now, key);
      (Store(if f.incr.IncrLost? then st.counters[key := Incr(st.counters, now, key)] else st.counters, es), v)
  }

  /** The counters of the Redis server. */
  class Redis {
    var counters: map<Key, Counter>

    constructor ()
      ensures counters == map[]
    {
      counters := map[];
    }
  }

  class Limiter {
    const config: Config
    const client: Redis?
    const fallback: MemoryLimiter
    var errCount: nat

    constructor (client: Redis?, config: Config, fallback: MemoryLimiter)
      ensures this.client == client && this.config == config && this.fallback == fallback && errCount == 0
    {
      this.client, this.config, this.fallback, errCount := client, config, fallback, 0;
    }

    /** Without a client every call goes to the fallback; otherwise the store moves as `AllowVia` says. */
    method Allow(now: nat, key: Key, f: Faults) returns (v: Verdict)
      modifies this, client, fallback
      ensures client == null && !Unlimited(config, key) ==>
        (fallback.entries, v) == AllowIn(fallback.config, old(fallback.entries), now, key)
      ensures client != null ==>
        (Store(client.counters, fallback.entries), v)
        == AllowVia(config, fallback.config, Store(old(client.counters), old(fallback.entries)), now, key, f)
      ensures errCount >= old(errCount)
    {
      if key == Named("") || config.limit <= 0 {
        return Verdict(true, 0);
      }
      if client == null {
        v := fallback.Allow(now, key);
        return;
      }
      if !f.incr.IncrOk? {
        if f.incr.IncrLost? {
          client.counters := client.counters[key := Incr(client.counters, now, key)];
        }
        errCount := errCount + 1;
        v := fallback.Allow(now, key);
        return;
      }
      var count := Incr(client.counters, now, key).count;
      client.counters := client.counters[key := Incr(client.counters, now, key)];
      if count == 1 {
        if f.expireFails {
          errCount := errCount + 1;
        } else {
          client.counters := Expire(client.counters, now, key, config.window);
        }
      }
      if count > config.limit {
        if f.ttlFails {
          errCount := errCount + 1;
          return Verdict(false, RemainingDuration(config.window, now));
        }
        if key !in client.counters || client.counters[key].expiry.None? || client.counters[key].expiry.value <= now {
          return Verdict(false, RemainingDuration(config.window, now));
        }
        return Verdict(false, CeilDuration(client.counters[key].expiry.value - now));
      }
      return Verdict(true, 0);
    }
  }

  /**
    The hint of a refusal by Redis is positive, and a retry that waits it is admitted if the key has
    an expiry and the TTL command worked. A key whose EXPIRE failed refuses for ever.
   */
  lemma RetryAfterRefusal(c: Config, fc: Config, st: Store, now: nat, key: Key, f: Faults, t: nat, f': Faults)
    requires f.incr.IncrOk? && f'.incr.IncrOk? && now <= t
    requires !AllowVia(c, fc, st, now, key, f).1.allowed
    ensures var (st', v) := AllowVia(c, fc, st, now, key, f);
      && v.retryAfter > 0 && key in st'.counters
      && var expiry := st'.counters[key].expiry;
      && (AllowVia(c, fc, st', t, key, f').1.allowed <==> expiry.Some? && expiry.value <= t)
      && (expiry.Some? && !f.ttlFails && now + v.retryAfter <= t ==> AllowVia(c, fc, st', t, key, f').1.allowed)
  {
    var st' := AllowVia(c, fc, st, now, key, f).0;
    assert Incr(st.counters, now, key).count > c.limit >= 1;
    assert st'.counters[key] == Incr(st.counters, now, key);
  }

  // ---------------------------------------------------------------- the per-user middleware

  datatype Op = Request(now: nat, user: int, faults: Faults) | Clean(now: nat)

  function EpochKey(user: int, windowSeconds: nat, now: nat): Key
    requires windowSeconds > 0
  {
    UserKey(user, now / SECOND / windowSeconds)
  }

  /** The limiter that the application builds for a window of whole seconds. */
  function ConfigFor(limit: int, windowSeconds: nat): Config {
    Config(limit, windowSeconds * SECOND)
  }

  /** A run, with the requests of one (user, epoch) that were admitted through Redis and through memory. */
  datatype Tally = Tally(st: Store, last: nat, viaRedis: nat, viaMemory: nat)

  function Step(limit: int, ws: nat, t: Tally, op: Op, key: Key): Tally
    requires ws > 0
  {
    match op
    case Clean(now) => t.(st := t.st.(fallback := Cleaned(t.st.fallback, now)), last := now)
    case Request(now, user, f) =>
      var k := EpochKey(user, ws, now);
      var (st, v) := AllowVia(ConfigFor(limit, ws), ConfigFor(limit, ws), t.st, now, k, f);
      var hit := if k == key && v.allowed then 1 else 0;
      if f.incr.IncrOk? then Tally(st, now, t.viaRedis + hit, t.viaMemory)
        else Tally(st, now, t.viaRedis, t.viaMemory + hit)
  }

  function Play(limit: int, ws: nat, ops: seq<Op>, key: Key): Tally
    requires ws > 0
  {
    if ops == [] then Tally(Store(map[], map[]), 0, 0, 0)
    else Step(limit, ws, Play(limit, ws, ops[..|ops| - 1], key), ops[|ops| - 1], key)
  }

  predicate InOrder(ops: seq<Op>) {
    forall i, j :: 0 <= i < j < |ops| ==> ops[i].now <= ops[j].now
  }

  /** INCR succeeds on every request of this user and epoch. */
  predicate NeverFails(ws: nat, ops: seq<Op>, key: Key)
    requires ws > 0
  {
    forall i :: 0 <= i < |ops| && ops[i].Request? && EpochKey(ops[i].user, ws, ops[i].now) == key ==>
      ops[i].faults.incr.IncrOk?
  }

  function EpochEnd(ws: nat, epoch: nat): nat {
    epoch * ws * SECOND + ws * SECOND
  }

  /** The counter of an epoch outlives the epoch, so it has seen every admission. */
  ghost predicate RedisOk(limit: int, t: Tally, key: Key, end: nat) {
    && t.viaRedis <= limit
    && (if key in t.st.counters
        then t.viaRedis <= t.st.counters[key].count
          && (t.st.counters[key].expiry.Some? ==> end <= t.st.counters[key].expiry.value)
        else t.viaRedis == 0)
  }

  /** The memory entry of an epoch resets with the epoch and is cleaned up only after it. */
  ghost predicate MemoryOk(limit: int, t: Tally, key: Key, end: nat) {
    && t.viaMemory <= limit
    && (if key in t.st.fallback
        then t.st.fallback[key].reset == end && t.viaMemory <= t.st.fallback[key].count
        else t.viaMemory == 0 || end < t.last)
  }

  lemma RequestInEpoch(user: int, ws: nat, now: nat, epoch: nat)
    requires ws > 0 && EpochKey(user, ws, now) == UserKey(user, epoch)
    ensures now < EpochEnd(ws, epoch) <= now + ws * SECOND
    ensures FixedWindowReset(now, ws * SECOND) == EpochEnd(ws, epoch)
  {
    EpochHolds(now, ws);
    assert WholeSeconds(ws * SECOND) == ws;
  }

  lemma StepKeepsRedis(limit: int, ws: nat, t: Tally, op: Op, user: int, epoch: nat)
    requires limit > 0 && ws > 0 && t.last <= op.now
    requires RedisOk(limit, t, UserKey(user, epoch), EpochEnd(ws, epoch))
    ensures RedisOk(limit, Step(limit, ws, t, op, UserKey(user, epoch)), UserKey(user, epoch), EpochEnd(ws, epoch))
  {
    if op.Request? && EpochKey(op.user, ws, op.now) == UserKey(user, epoch) {
      RequestInEpoch(user, ws, op.now, epoch);
    }
  }

  lemma StepKeepsMemory(limit: int, ws: nat, t: Tally, op: Op, user: int, epoch: nat)
    requires limit > 0 && ws > 0 && t.last <= op.now
    requires MemoryOk(limit, t, UserKey(user, epoch), EpochEnd(ws, epoch))
    ensures MemoryOk(limit, Step(limit, ws, t, op, UserKey(user, epoch)), UserKey(user, epoch), EpochEnd(ws, epoch))
  {
    if op.Request? && EpochKey(op.user, ws, op.now) == UserKey(user, epoch) {
      RequestInEpoch(user, ws, op.now, epoch);
    }
  }

  lemma {:induction false} PlayKeeps(limit: int, ws: nat, ops: seq<Op>, user: int, epoch: nat)
    requires limit > 0 && ws > 0 && InOrder(ops)
    ensures var t := Play(limit, ws, ops, UserKey(user, epoch));
      && RedisOk(limit, t, UserKey(user, epoch), EpochEnd(ws, epoch))
      && MemoryOk(limit, t, UserKey(user, epoch), EpochEnd(ws, epoch))
      && t.last == (if ops == [] then 0 else ops[|ops| - 1].now)
      && (NeverFails(ws, ops, UserKey(user, epoch)) ==> t.viaMemory == 0)
  {
    if ops != [] {
      var n := |ops| - 1;
      PlayKeeps(limit, ws, ops[..n], user, epoch);
      var t := Play(limit, ws, ops[..n], UserKey(user, epoch));
      assert t.last <= ops[n].now;
      StepKeepsRedis(limit, ws, t, ops[n], user, epoch);
      StepKeepsMemory(limit, ws, t, ops[n], user, epoch);
      if NeverFails(ws, ops, UserKey(user, epoch)) {
        assert forall i :: 0 <= i < n ==> ops[..n][i] == ops[i];
      }
    }
  }

  /** Without INCR failures of its own a user gets at most `limit` requests per epoch, whatever EXPIRE and TTL do. */
  lemma LimitPerEpoch(limit: int, ws: nat, ops: seq<Op>, user: int, epoch: nat)
    requires limit > 0 && ws > 0 && InOrder(ops)
    requires NeverFails(ws, ops, UserKey(user, epoch))
    ensures var t := Play(limit, ws, ops, UserKey(user, epoch)); t.viaRedis + t.viaMemory <= limit
  {
    PlayKeeps(limit, ws, ops, user, epoch);
  }

  /** Under any pattern of failures a user gets at most twice the limit per epoch. */
  lemma TwiceLimitPerEpoch(limit: int, ws: nat, ops: seq<Op>, user: int, epoch: nat)
    requires limit > 0 && ws > 0 && InOrder(ops)
    ensures var t := Play(limit, ws, ops, UserKey(user, epoch)); t.viaRedis + t.viaMemory <= 2 * limit
  {
    PlayKeeps(limit, ws, ops, user, epoch);
  }

  /** The requests of one user and epoch. */
  function Requests(ws: nat, ops: seq<Op>, key: Key): nat
    requires ws > 0
  {
    if ops == [] then 0
    else
      var last := ops[|ops| - 1];
      Requests(ws, ops[..|ops| - 1], key)
      + if last.Request? && EpochKey(last.user, ws, last.now) == key then 1 else 0
  }

  lemma {:induction false} CountedRequests(limit: int, ws: nat, ops: seq<Op>, key: Key)
    requires ws > 0
    ensures var st := Play(limit, ws, ops, key).st;
      && (key in st.counters ==> st.counters[key].count <= Requests(ws, ops, key))
      && (key in st.fallback ==> st.fallback[key].count <= Requests(ws, ops, key))
  {
    if ops != [] {
      var n := |ops| - 1;
      CountedRequests(limit, ws, ops[..n], key);
      CountsOneMore(limit, ws, Play(limit, ws, ops[..n], key), ops[n], key, Requests(ws, ops[..n], key));
    }
  }

  lemma CountsOneMore(limit: int, ws: nat, t: Tally, op: Op, key: Key, k: nat)
    requires ws > 0
    requires key in t.st.counters ==> t.st.counters[key].count <= k
    requires key in t.st.fallback ==> t.st.fallback[key].count <= k
    ensures var st := Step(limit, ws, t, op, key).st;
      var k' := k + if op.Request? && EpochKey(op.user, ws, op.now) == key then 1 else 0;
      && (key in st.counters ==> st.counters[key].count <= k')
      && (key in st.fallback ==> st.fallback[key].count <= k')
  {
  }

  /**
    Whatever fails, a request is refused only after `limit` earlier ones of the same user and epoch, and
    with a hint.
   */
  lemma RefusedAfterLimit(limit: int, ws: nat, ops: seq<Op>, now: nat, user: int, f: Faults)
    requires ws > 0
    ensures var key := EpochKey(user, ws, now);
      var st := Play(limit, ws, ops, key).st;
      var v := AllowVia(ConfigFor(limit, ws), ConfigFor(limit, ws), st, now, key, f).1;
      !v.allowed ==> v.retryAfter > 0 && 0 < limit <= Requests(ws, ops, key)
  {
    CountedRequests(limit, ws, ops, EpochKey(user, ws, now));
  }

  /** While a key lives its expiry stays as its first request set it, whatever requests and failures follow. */
  lemma {:induction false} WindowStays(limit: int, ws: nat, ops: seq<Op>, m: nat, key: Key)
    requires limit > 0 && ws > 0 && m <= |ops|
    requires var cs := Play(limit, ws, ops[..m], key).st.counters;
      && key in cs && cs[key].count > 0 && cs[key].expiry.Some?
      && forall i :: m <= i < |ops| ==> ops[i].now < cs[key].expiry.value
    ensures var cs, cs' := Play(limit, ws, ops[..m], key).st.counters, Play(limit, ws, ops, key).st.counters;
      key in cs' && cs'[key].expiry == cs[key].expiry && cs[key].count <= cs'[key].count
  {
    if m < |ops| {
      var pre := ops[..|ops| - 1];
      assert pre[..m] == ops[..m];
      WindowStays(limit, ws, pre, m, key);
    } else {
      assert ops[..m] == ops;
    }
  }

  /** So a user's window is one window long, counted from the first request of the epoch. */
  lemma WindowFromFirstRequest(limit: int, ws: nat, ops: seq<Op>, m: nat, key: Key)
    requires limit > 0 && ws > 0 && m < |ops| && key !in Play(limit, ws, ops[..m], key).st.counters
    requires ops[m].Request? && EpochKey(ops[m].user, ws, ops[m].now) == key
    requires ops[m].faults.incr.IncrOk? && !ops[m].faults.expireFails
    requires forall i :: m < i < |ops| ==> ops[i].now < ops[m].now + ws * SECOND
    ensures var cs := Play(limit, ws, ops, key).st.counters;
      key in cs && cs[key].expiry == Some(ops[m].now + ws * SECOND)
  {
    assert ops[..m + 1][..m] == ops[..m];
    WindowStays(limit, ws, ops, m + 1, key);
  }

  function Burst(now: nat, user: int, f: Faults, n: nat): seq<Op> {
    seq(n, _ => Request(now, user, f))
  }

  lemma StartsEpoch(user: int, ws: nat, epoch: nat)
    requires ws > 0
    ensures EpochKey(user, ws, epoch * ws * SECOND) == UserKey(user, epoch)
  {
    var now := epoch * ws * SECOND;
    var p := now / SECOND / ws;
    EpochHolds(now, ws);
    if p < epoch { NextEpochStarts(p, epoch, ws); }
    if epoch < p { NextEpochStarts(epoch, p, ws); }
  }

  const UP := Faults(IncrOk, false, false)
  const DOWN := Faults(IncrFailed, false, false)

  lemma {:induction false} UpBurst(limit: int, ws: nat, user: int, now: nat, n: nat)
    requires limit > 0 && ws > 0 && n <= limit
    ensures var key := EpochKey(user, ws, now);
      var t := Play(limit, ws, Burst(now, user, UP, n), key);
      && t.viaRedis == n && t.viaMemory == 0 && t.st.fallback == map[]
      && t.st.counters == if n == 0 then map[] else map[key := Counter(n, Some(now + ConfigFor(limit, ws).window))]
  {
    if n > 0 {
      UpBurst(limit, ws, user, now, n - 1);
      assert Burst(now, user, UP, n)[..n - 1] == Burst(now, user, UP, n - 1);
    }
  }

  lemma {:induction false} DownBurst(limit: int, ws: nat, user: int, now: nat, n: nat)
    requires limit > 0 && ws > 0 && n <= limit
    ensures var key := EpochKey(user, ws, now);
      var t := Play(limit, ws, Burst(now, user, UP, limit) + Burst(now, user, DOWN, n), key);
      && t.viaRedis == limit && t.viaMemory == n
      && if n == 0 then t.st.fallback == map[]
         else key in t.st.fallback && t.st.fallback[key] == Entry(n, FixedWindowReset(now, ConfigFor(limit, ws).window))
  {
    var up := Burst(now, user, UP, limit);
    if n == 0 {
      UpBurst(limit, ws, user, now, limit);
      assert up + Burst(now, user, DOWN, 0) == up;
    } else {
      DownBurst(limit, ws, user, now, n - 1);
      assert (up + Burst(now, user, DOWN, n))[..limit + n - 1] == up + Burst(now, user, DOWN, n - 1);
    }
  }

  /** For every limit, window, user and epoch the bound is reached: a full limit through Redis, one through memory. */
  lemma TwiceLimitIsReached(limit: int, ws: nat, user: int, epoch: nat) returns (ops: seq<Op>)
    requires limit > 0 && ws > 0
    ensures InOrder(ops)
    ensures var t := Play(limit, ws, ops, UserKey(user, epoch)); t.viaRedis + t.viaMemory == 2 * limit
  {
    var now := epoch * ws * SECOND;
    ops := Burst(now, user, UP, limit) + Burst(now, user, DOWN, limit);
    StartsEpoch(user, ws, epoch);
    DownBurst(limit, ws, user, now, limit);
  }
}
