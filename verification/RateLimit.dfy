/**
  The fixed-window rate limiters: one in process memory, one in Redis that falls back to memory.

  Times and durations are nanoseconds. The classes are the limiters themselves; the functions beside
  them give the same behaviour on values, so that whole runs can be reasoned about.
 */
module RateLimit {

  const SECOND: nat := 1_000_000_000

  /** A limiter key: a plain string, or what the per-user middleware formats from user and epoch. */
  datatype Key = Named(s: string) | UserKey(user: int, epoch: nat)

  datatype Verdict = Verdict(allowed: bool, retryAfter: nat)

  datatype Config = Config(limit: int, window: int)

  // ---------------------------------------------------------------- window arithmetic

  /** int64(window.Seconds()) */
  function WholeSeconds(window: int): nat {
    if window <= 0 then 0 else window / SECOND
  }

  /** Windows are aligned to multiples of their whole seconds; the reset is one window after the current start. */
  function FixedWindowReset(now: nat, window: int): (reset: nat)
    ensures now < reset
    ensures var length := WholeSeconds(window) * SECOND;
      if length == 0 then reset == now + SECOND
      else reset - window <= now < reset - window + length && (reset - window) % length == 0
  {
    var ws := WholeSeconds(window);
    if ws == 0 then now + SECOND
    else
      var epoch := now / SECOND / ws;
      EpochHolds(now, ws);
      ModOfProduct(epoch, ws * SECOND);
      assert epoch * ws * SECOND == epoch * (ws * SECOND);
      epoch * ws * SECOND + window
  }

  /** What one generation of an entry is guaranteed to cover: the window's whole seconds, or one second. */
  function Span(window: int): (span: nat)
    ensures WholeSeconds(window) > 0 && window % SECOND == 0 ==> span == window
  {
    var ws := WholeSeconds(window);
    if ws == 0 then SECOND else ws * SECOND
  }

  lemma EpochHolds(now: nat, ws: nat)
    requires ws > 0
    ensures (now / SECOND / ws) * ws * SECOND <= now < (now / SECOND / ws) * ws * SECOND + ws * SECOND
  {
    var n := now / SECOND;
    var q := n / ws;
    assert n == q * ws + n % ws;
    assert (q * ws) * SECOND <= n * SECOND <= now;
    assert n + 1 <= q * ws + ws;
    assert now < (n + 1) * SECOND <= (q * ws + ws) * SECOND;
  }

  lemma ModOfProduct(n: nat, d: nat)
    requires d > 0
    ensures (n * d) % d == 0
  {
    var p := n * d;
    var q, r := p / d, p % d;
    assert p == q * d + r;
    assert (n - q) * d == r;
    if n - q >= 1 {
      ProductAtLeast(n - q, d);
    } else if n - q <= -1 {
      ProductAtLeast(q - n, d);
    }
  }

  lemma ProductAtLeast(n: int, d: nat)
    requires n >= 1
    ensures n * d >= d
  {
    assert n * d == (n - 1) * d + d;
  }

  lemma LaterEpochStarts(p: nat, q: nat, ws: nat)
    requires p <= q
    ensures p * ws * SECOND <= q * ws * SECOND
  {
    assert p * ws <= q * ws;
  }

  lemma EpochAtLeast(now: nat, ws: nat, q: nat)
    requires ws > 0 && now >= q * ws * SECOND + ws * SECOND
    ensures now / SECOND / ws >= q + 1
  {
    EpochHolds(now, ws);
    var p := now / SECOND / ws;
    if p <= q { LaterEpochStarts(p, q, ws); }
  }

  lemma NextEpochStarts(q: nat, p: nat, ws: nat)
    requires q + 1 <= p
    ensures p * ws * SECOND >= q * ws * SECOND + ws * SECOND
  {
    LaterEpochStarts(q + 1, p, ws);
    assert (q + 1) * ws == q * ws + ws;
  }

  /** A new generation, begun after the old one's reset, resets at least one span later. */
  lemma GenerationsApart(before: nat, now: nat, window: int)
    requires now > FixedWindowReset(before, window)
    ensures FixedWindowReset(now, window) >= FixedWindowReset(before, window) + Span(window)
  {
    var ws := WholeSeconds(window);
    if ws > 0 {
      var q := before / SECOND / ws;
      assert window >= ws * SECOND;
      EpochAtLeast(now, ws, q);
      NextEpochStarts(q, now / SECOND / ws, ws);
    }
  }

  /** Two resets are equal or a span apart, if the window has a whole second. */
  lemma ResetsApart(t0: nat, t: nat, window: int)
    requires WholeSeconds(window) > 0
    ensures FixedWindowReset(t, window) <= FixedWindowReset(t0, window)
         || FixedWindowReset(t, window) >= FixedWindowReset(t0, window) + Span(window)
  {
    var ws := WholeSeconds(window);
    var p, q := t0 / SECOND / ws, t / SECOND / ws;
    if p + 1 <= q { NextEpochStarts(p, q, ws); } else { LaterEpochStarts(q, p, ws); }
  }

  // ---------------------------------------------------------------- the memory limiter

  datatype Entry = Entry(count: nat, reset: nat)

  predicate Live(es: map<Key, Entry>, now: nat, key: Key) {
    key in es && now <= es[key].reset
  }

  /** The entry that a call works on: the live one, or a new one with the reset computed beforehand. */
  function Current(es: map<Key, Entry>, now: nat, reset: nat, key: Key): Entry {
    if Live(es, now, key) then es[key] else Entry(0, reset)
  }

  predicate Unlimited(c: Config, key: Key) {
    key == Named("") || c.limit <= 0
  }

  function AllowIn(c: Config, es: map<Key, Entry>, now: nat, key: Key): (map<Key, Entry>, Verdict) {
    AllowAt(c, es, now, FixedWindowReset(now, c.window), key)
  }

  /** The part of a call that runs under the mutex. */
  function AllowAt(c: Config, es: map<Key, Entry>, now: nat, reset: nat, key: Key): (map<Key, Entry>, Verdict) {
    if Unlimited(c, key) then (es, Verdict(true, 0))
    else
      var e := Current(es, now, reset, key);
      if e.count >= c.limit
      then (es[key := e], Verdict(false, if e.reset <= now then SECOND else e.reset - now))
      else (es[key := e.(count := e.count + 1)], Verdict(true, 0))
  }

  function Cleaned(es: map<Key, Entry>, now: nat): map<Key, Entry> {
    map k | k in es && now <= es[k].reset :: es[k]
  }

  class MemoryLimiter {
    const config: Config
    var entries: map<Key, Entry>

    constructor (limit: int, window: int)
      ensures config == Config(limit, window) && entries == map[]
    {
      config, entries := Config(limit, window), map[];
    }

    method Allow(now: nat, key: Key) returns (v: Verdict)
      modifies this
      ensures (entries, v) == AllowIn(config, old(entries), now, key)
    {
      if key == Named("") || config.limit <= 0 {
        return Verdict(true, 0);
      }
      var reset := FixedWindowReset(now, config.window);
      if key !in entries || now > entries[key].reset {
        entries := entries[key := Entry(0, reset)];
      }
      var e := entries[key];
      if e.count >= config.limit {
        var ra := e.reset - now;
        if ra <= 0 {
          ra := SECOND;
        }
        assert old(entries)[key := e] == entries;
        return Verdict(false, ra);
      }
      entries := entries[key := Entry(e.count + 1, e.reset)];
      assert entries == old(entries)[key := Entry(e.count + 1, e.reset)];
      return Verdict(true, 0);
    }

    /** One tick of the cleanup goroutine. */
    method Cleanup(now: nat)
      modifies this
      ensures entries == Cleaned(old(entries), now)
    {
      var todo := entries.Keys;
      while todo != {}
        invariant todo <= old(entries).Keys
        invariant entries.Keys == set k | k in old(entries) && (k in todo || now <= old(entries)[k].reset)
        invariant forall k :: k in entries ==> entries[k] == old(entries)[k]
      {
        var k :| k in todo;
        if now > entries[k].reset {
          entries := entries - {k};
        }
        todo := todo - {k};
      }
    }
  }

  // ---------------------------------------------------------------- retry hints

  /** The least number of whole seconds that covers a positive duration. */
  function CeilDuration(d: int): (r: nat)
    ensures d <= 0 ==> r == 0
    ensures d > 0 ==> r % SECOND == 0 && r - SECOND < d <= r
  {
    if d <= 0 then 0 else ((d + SECOND - 1) / SECOND) * SECOND
  }

  /** The time to the next window boundary, counted from the current whole second. */
  function RemainingDuration(window: int, now: nat): (r: nat)
    ensures 0 < r && r % SECOND == 0
    ensures var ws := WholeSeconds(window);
      ws > 0 ==> r <= ws * SECOND && now / SECOND + r / SECOND == (now / SECOND / ws + 1) * ws
  {
    var ws := WholeSeconds(window);
    if ws <= 0 then SECOND
    else
      var rem := ws - (now / SECOND) % ws;
      assert now / SECOND == (now / SECOND / ws) * ws + (now / SECOND) % ws;
      rem * SECOND
  }

  /**
    The hint of a refusal points at the reset, where the entry is still in force: of two otherwise
    undisturbed retries, the one at or before the reset is refused, the one after it is admitted.
    So waiting the Retry-After header fails exactly when the reset is a whole number of seconds away.
   */
  lemma RetryAfterRefusal(c: Config, es: map<Key, Entry>, now: nat, key: Key, t: nat)
    requires !AllowIn(c, es, now, key).1.allowed && now <= t
    ensures var (es', v) := AllowIn(c, es, now, key);
      && key in es' && v.retryAfter > 0
      && (AllowIn(c, es', t, key).1.allowed <==> t > es'[key].reset)
      && (t == now + CeilDuration(v.retryAfter) ==>
            (!AllowIn(c, es', t, key).1.allowed <==> es'[key].reset > now && (es'[key].reset - now) % SECOND == 0))
  {
    var (es', v) := AllowIn(c, es, now, key);
    assert Live(es', now, key);
    if t == now + CeilDuration(v.retryAfter) && es'[key].reset > now {
      var d := es'[key].reset - now;
      assert v.retryAfter == d;
      if d % SECOND == 0 { assert (d + SECOND - 1) / SECOND == d / SECOND; }
    }
  }
}
