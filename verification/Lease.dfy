/**
  The Redis lease lock: SET NX with an expiry to acquire, compare-and-delete to release.

  `Locker` is the lock object, one atomic Redis command per method. `State` is the protocol that
  any number of clients run against it: a client is inside a key's section from a successful
  acquire until its release command, and leases may run out at any moment in between.
 */
module Lease {

  /** A Redis string with an expiry; it is visible only before that moment. */
  datatype Lease = Lease(token: string, expiry: nat)

  predicate Visible(l: Lease, now: nat) {
    now < l.expiry
  }

  predicate Taken<K(!new)>(locks: map<K, Lease>, now: nat, key: K) {
    key in locks && Visible(locks[key], now)
  }

  /** SET key token NX PX ttl; does nothing when the key is visible. */
  function SetNX<K(!new)>(locks: map<K, Lease>, now: nat, key: K, token: string, ttl: nat): map<K, Lease> {
    if Taken(locks, now, key) then locks else locks[key := Lease(token, now + ttl)]
  }

  /** The release script: delete the key only if it still holds this token. */
  function CompareAndDelete<K(!new)>(locks: map<K, Lease>, now: nat, key: K, token: string): map<K, Lease> {
    if Taken(locks, now, key) && locks[key].token == token then locks - {key} else locks
  }

  /** 15 seconds, in nanoseconds: the lease of a caller that asks for none. */
  const DEFAULT_TTL: nat := 15_000_000_000

  /** A positive request is honoured; any other gets 15 seconds. */
  function EffectiveTtl(ttl: int): (r: nat)
    ensures r == ttl || (ttl <= 0 && r == 15 * 1_000_000_000)
  {
    if ttl <= 0 then DEFAULT_TTL else ttl
  }

  /** The shared Redis instance, as far as locks are concerned. */
  class Redis {
    var now: nat
    var locks: map<string, Lease>

    constructor ()
      ensures now == 0 && locks == map[]
    {
      now, locks := 0, map[];
    }
  }

  /** What may go wrong with a command: it never runs, or it runs and its reply is lost. */
  datatype Fault = NoFault | NotRun | ReplyLost

  class Locker {
    const client: Redis?

    constructor (client: Redis?)
      ensures this.client == client
    {
      this.client := client;
    }

    /** `uuid` is the fresh token. */
    method Acquire(key: string, ttl: int, uuid: string, fault: Fault) returns (token: string, ok: bool, err: bool)
      modifies client
      ensures err <==> client == null || key == "" || fault != NoFault
      ensures ok ==> token == uuid && !err
      ensures !ok ==> token == ""
      ensures client != null ==>
        && client.now == old(client.now)
        && client.locks == (if key == "" || fault == NotRun then old(client.locks)
                            else SetNX(old(client.locks), client.now, key, uuid, EffectiveTtl(ttl)))
        && (!err ==> (ok <==> !Taken(old(client.locks), client.now, key)))
    {
      if client == null || key == "" || fault == NotRun {
        return "", false, true;
      }
      var t := if ttl <= 0 then DEFAULT_TTL else ttl;
      var done := !(key in client.locks && client.now < client.locks[key].expiry);
      if done {
        client.locks := client.locks[key := Lease(uuid, client.now + t)];
      }
      if fault == ReplyLost {
        return "", false, true;
      }
      return if done then uuid else "", done, false;
    }

    method Release(key: string, token: string, fault: Fault) returns (err: bool)
      modifies client
      ensures err <==> client != null && key != "" && token != "" && fault != NoFault
      ensures client != null ==>
        && client.now == old(client.now)
        && client.locks == (if key == "" || token == "" || fault == NotRun then old(client.locks)
                            else CompareAndDelete(old(client.locks), client.now, key, token))
    {
      if client == null || key == "" || token == "" {
        return false;
      }
      if fault == NotRun {
        return true;
      }
      if key in client.locks && client.now < client.locks[key].expiry && client.locks[key].token == token {
        client.locks := client.locks - {key};
      }
      return fault == ReplyLost;
    }
  }

  // ---------------------------------------------------------------- the protocol

  /** A client's view of its lock; `order` numbers the acquisitions. */
  datatype Hold<K> = Hold(key: K, token: string, since: nat, expiry: nat, order: nat)

  datatype State<K, C> = State(
    now: nat,
    locks: map<K, Lease>,
    issued: set<string>,
    acquired: nat,
    inside: map<C, Hold<K>>)

  datatype Step<K, C> =
    | Tick(now: nat)
    | Acquire(client: C, key: K, token: string, ttl: nat)
    | Orphan(key: K, token: string, ttl: nat)
    | Denied(client: C, key: K)
    | Release(client: C)
    | Abandon(client: C)

  ghost predicate Init<K(!new), C(!new)>(s: State<K, C>) {
    s.locks == map[] && s.issued == {} && s.inside == map[] && s.acquired == 0
  }

  /**
    `Acquire` is a successful SET NX carrying a fresh token, `Orphan` one whose reply is lost, so
    that nobody knows the token, `Denied` one that found the key taken. `Release` leaves the section
    running the script, whether or not its reply arrives; `Abandon` leaves it without the script.
   */
  ghost predicate Next<K(!new), C(!new)>(s: State<K, C>, step: Step<K, C>, s': State<K, C>) {
    match step
    case Tick(now) =>
      s.now <= now && s' == s.(now := now)
    case Acquire(c, key, token, ttl) =>
      && ttl > 0 && c !in s.inside && token !in s.issued && !Taken(s.locks, s.now, key)
      && s' == s.(locks := SetNX(s.locks, s.now, key, token, ttl),
                  issued := s.issued + {token},
                  acquired := s.acquired + 1,
                  inside := s.inside[c := Hold(key, token, s.now, s.now + ttl, s.acquired)])
    case Orphan(key, token, ttl) =>
      && ttl > 0 && token !in s.issued
      && s' == s.(locks := SetNX(s.locks, s.now, key, token, ttl), issued := s.issued + {token})
    case Denied(c, key) =>
      Taken(s.locks, s.now, key) && s' == s
    case Release(c) =>
      && c in s.inside
      && s' == s.(locks := CompareAndDelete(s.locks, s.now, s.inside[c].key, s.inside[c].token),
                  inside := s.inside - {c})
    case Abandon(c) =>
      c in s.inside && s' == s.(inside := s.inside - {c})
  }

  /** A client whose lease has not run out owns the key. */
  ghost predicate Own<K(!new), C(!new)>(s: State<K, C>, c: C)
    requires c in s.inside
  {
    var h := s.inside[c];
    && h.token in s.issued && h.order < s.acquired && h.since <= s.now
    && (s.now < h.expiry ==> h.key in s.locks && s.locks[h.key] == Lease(h.token, h.expiry))
  }

  /** Two clients never share a token; in one section the later one came after the earlier lease. */
  ghost predicate Apart<K(!new), C(!new)>(s: State<K, C>, c: C, d: C)
    requires c in s.inside && d in s.inside
  {
    && (c != d ==> s.inside[c].token != s.inside[d].token && s.inside[c].order != s.inside[d].order)
    && (s.inside[c].key == s.inside[d].key && s.inside[c].order < s.inside[d].order ==>
      s.inside[c].expiry <= s.inside[d].since)
  }

  ghost predicate Inv<K(!new), C(!new)>(s: State<K, C>) {
    && (forall k :: k in s.locks ==> s.locks[k].token in s.issued)
    && (forall c {:trigger Own(s, c)} :: c in s.inside ==> Own(s, c))
    && (forall c, d {:trigger Apart(s, c, d)} :: c in s.inside && d in s.inside ==> Apart(s, c, d))
  }

  lemma NextKeepsOwn<K(!new), C(!new)>(s: State<K, C>, step: Step<K, C>, s': State<K, C>, c: C)
    requires Inv(s) && Next(s, step, s') && c in s'.inside
    ensures Own(s', c)
  {
    if c in s.inside {
      assert Own(s, c);
      if step.Release? { assert Own(s, step.client) && Apart(s, c, step.client); }
    }
  }

  lemma NextKeepsApart<K(!new), C(!new)>(s: State<K, C>, step: Step<K, C>, s': State<K, C>, c: C, d: C)
    requires Inv(s) && Next(s, step, s') && c in s'.inside && d in s'.inside
    ensures Apart(s', c, d)
  {
    if c in s.inside { assert Own(s, c); }
    if d in s.inside { assert Own(s, d); }
    if c in s.inside && d in s.inside { assert Apart(s, c, d); }
  }

  lemma NextKeepsInv<K(!new), C(!new)>(s: State<K, C>, step: Step<K, C>, s': State<K, C>)
    requires Inv(s) && Next(s, step, s')
    ensures Inv(s')
  {
    forall c | c in s'.inside ensures Own(s', c) {
      NextKeepsOwn(s, step, s', c);
    }
    forall c, d | c in s'.inside && d in s'.inside ensures Apart(s', c, d) {
      NextKeepsApart(s, step, s', c, d);
    }
  }

  ghost predicate Run<K(!new), C(!new)>(tr: seq<State<K, C>>, steps: seq<Step<K, C>>) {
    && |tr| == |steps| + 1
    && Init(tr[0])
    && forall i {:trigger StepAt(tr, steps, i)} :: 0 <= i < |steps| ==> StepAt(tr, steps, i)
  }

  ghost predicate StepAt<K(!new), C(!new)>(tr: seq<State<K, C>>, steps: seq<Step<K, C>>, i: int)
    requires |tr| == |steps| + 1 && 0 <= i < |steps|
  {
    Next(tr[i], steps[i], tr[i + 1])
  }

  lemma {:induction false} RunKeepsInv<K(!new), C(!new)>(tr: seq<State<K, C>>, steps: seq<Step<K, C>>, n: nat)
    requires Run(tr, steps) && n < |tr|
    ensures Inv(tr[n])
  {
    if n > 0 {
      RunKeepsInv(tr, steps, n - 1);
      assert StepAt(tr, steps, n - 1);
      NextKeepsInv(tr[n - 1], steps[n - 1], tr[n]);
    }
  }

  /**
    Two clients are inside one key's section together only if the lease of the earlier one had
    run out by the time the later one got in.
   */
  lemma OverlapNeedsExpiry<K(!new), C(!new)>(tr: seq<State<K, C>>, steps: seq<Step<K, C>>, n: nat, c: C, d: C)
    requires Run(tr, steps) && n < |tr|
    requires c in tr[n].inside && d in tr[n].inside && c != d
    requires tr[n].inside[c].key == tr[n].inside[d].key && tr[n].inside[c].order < tr[n].inside[d].order
    ensures tr[n].inside[c].expiry <= tr[n].inside[d].since <= tr[n].now
  {
    RunKeepsInv(tr, steps, n);
    assert Own(tr[n], d) && Apart(tr[n], c, d);
  }

  /** While its lease lasts, a client is alone in its section. */
  lemma LeaseExcludes<K(!new), C(!new)>(s: State<K, C>, c: C, d: C)
    requires Inv(s)
    requires c in s.inside && d in s.inside && s.inside[c].key == s.inside[d].key
    requires s.now < s.inside[c].expiry && s.now < s.inside[d].expiry
    ensures c == d
  {
    assert Own(s, c) && Own(s, d) && Apart(s, c, d);
  }

  /** A lock value disappears only by its own expiry or by a release that carries its own token. */
  lemma OnlyOwnReleaseRemoves<K(!new), C(!new)>(tr: seq<State<K, C>>, steps: seq<Step<K, C>>, n: nat, key: K)
    requires Run(tr, steps) && n < |steps|
    requires Taken(tr[n].locks, tr[n].now, key)
    requires !(key in tr[n + 1].locks && tr[n + 1].locks[key] == tr[n].locks[key]
      && Visible(tr[n + 1].locks[key], tr[n + 1].now))
    ensures
      || tr[n].locks[key].expiry <= tr[n + 1].now
      || (&& steps[n].Release? && steps[n].client in tr[n].inside
          && tr[n].inside[steps[n].client].key == key
          && tr[n].inside[steps[n].client].token == tr[n].locks[key].token)
  {
    var s, s' := tr[n], tr[n + 1];
    assert StepAt(tr, steps, n);
    match steps[n] {
      case Release(c) => assert s'.locks == CompareAndDelete(s.locks, s.now, s.inside[c].key, s.inside[c].token);
      case _ =>
    }
  }

  /** A release that comes after the lease ran out never removes the next holder's lock. */
  lemma LateReleaseIsHarmless<K(!new), C(!new)>(s: State<K, C>, c: C, d: C, s': State<K, C>)
    requires Inv(s) && Next(s, Release(c), s')
    requires d in s.inside && d != c && s.inside[d].key == s.inside[c].key && s.now < s.inside[d].expiry
    ensures s'.locks == s.locks && d in s'.inside && s'.inside[d] == s.inside[d]
  {
    assert Own(s, d) && Apart(s, c, d);
  }

  // ---------------------------------------------------------------- the term of a lease

  lemma {:induction false} HoldStays<K(!new), C(!new)>(tr: seq<State<K, C>>, steps: seq<Step<K, C>>, m: nat, n: nat)
    requires Run(tr, steps) && m < n < |tr| && steps[m].Acquire?
    requires forall i :: m < i <= n ==> steps[m].client in tr[i].inside
    ensures var h := tr[n].inside[steps[m].client];
      h.key == steps[m].key && h.token == steps[m].token && h.expiry == tr[m].now + steps[m].ttl
    decreases n
  {
    assert StepAt(tr, steps, n - 1);
    if m < n - 1 { HoldStays(tr, steps, m, n - 1); }
  }

  /** For its whole term, and until its client leaves, a lease keeps everybody else out. */
  lemma HeldForItsTerm<K(!new), C(!new)>(tr: seq<State<K, C>>, steps: seq<Step<K, C>>, m: nat, n: nat)
    requires Run(tr, steps) && m < n < |tr| && steps[m].Acquire?
    requires forall i :: m < i <= n ==> steps[m].client in tr[i].inside
    requires tr[n].now < tr[m].now + steps[m].ttl
    ensures Taken(tr[n].locks, tr[n].now, steps[m].key) && tr[n].locks[steps[m].key].token == steps[m].token
    ensures n < |steps| && steps[n].Acquire? ==> steps[n].key != steps[m].key
  {
    HoldStays(tr, steps, m, n);
    RunKeepsInv(tr, steps, n);
    assert Own(tr[n], steps[m].client);
    if n < |steps| { assert StepAt(tr, steps, n); }
  }

  /** A key is taken only within the term of a SET NX that carried the token it holds. */
  lemma {:induction false} TakenWithinATerm<K(!new), C(!new)>(
    tr: seq<State<K, C>>, steps: seq<Step<K, C>>, n: nat, key: K)
    returns (m: nat)
    requires Run(tr, steps) && n < |tr| && key in tr[n].locks
    ensures m < n
    ensures (steps[m].Acquire? || steps[m].Orphan?) && steps[m].key == key && steps[m].token == tr[n].locks[key].token
    ensures tr[n].locks[key].expiry == tr[m].now + steps[m].ttl
    ensures Taken(tr[n].locks, tr[n].now, key) ==> tr[n].now < tr[m].now + steps[m].ttl
  {
    assert StepAt(tr, steps, n - 1);
    if key in tr[n - 1].locks && tr[n - 1].locks[key] == tr[n].locks[key] {
      m := TakenWithinATerm(tr, steps, n - 1, key);
    } else {
      m := n - 1;
    }
  }

  /** A client that releases within its term leaves the key free. */
  lemma ReleaseFrees<K(!new), C(!new)>(tr: seq<State<K, C>>, steps: seq<Step<K, C>>, n: nat)
    requires Run(tr, steps) && n < |steps| && steps[n].Release? && steps[n].client in tr[n].inside
    requires tr[n].now < tr[n].inside[steps[n].client].expiry
    ensures !Taken(tr[n + 1].locks, tr[n + 1].now, tr[n].inside[steps[n].client].key)
  {
    RunKeepsInv(tr, steps, n);
    assert StepAt(tr, steps, n);
    assert Own(tr[n], steps[n].client);
  }
}
