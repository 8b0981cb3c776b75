/**
  The login lockout: a failure counter and a lock key per login, both with an expiry, and the login
  handler that drives them.
 */
module Lockout {
  import opened Common

  datatype Config = Config(maxAttempts: int, lockTtl: int)

  datatype Counter = Counter(count: nat, expiry: Option<nat>)

  /** What Redis holds for one login: the failure counter and the end of the lock (0 when there is none). */
  datatype Record = Record(fails: Option<Counter>, lockedUntil: nat)

  const CLEAN := Record(None, 0)

  /** Which commands of one attempt fail. */
  datatype Faults = Faults(ttl: bool, incr: bool, expire: bool, set_: bool, del: bool)

  const NO_FAULTS := Faults(false, false, false, false, false)

  /** What the service says of a login: bad credentials, an error after a good password, or tokens. */
  datatype Answer = Rejected | Broken | Accepted

  datatype Outcome = Refused | Failed | Errored | Succeeded

  predicate Disabled(c: Config) {
    c.maxAttempts <= 0 || c.lockTtl <= 0
  }

  predicate LockedAt(r: Record, now: nat) {
    now < r.lockedUntil
  }

  predicate Counting(r: Record, now: nat) {
    r.fails.Some? && (r.fails.value.expiry.Some? ==> now < r.fails.value.expiry.value)
  }

  /** INCR and, on the first failure, EXPIRE. */
  function Bumped(c: Config, r: Record, now: nat, expireFails: bool): Counter
    requires !Disabled(c)
  {
    if Counting(r, now) then r.fails.value.(count := r.fails.value.count + 1)
    else Counter(1, if expireFails then None else Some(now + c.lockTtl))
  }

  function AfterFailure(c: Config, r: Record, now: nat, f: Faults): Record {
    if Disabled(c) || f.incr then r
    else
      var k := Bumped(c, r, now, f.expire);
      Record(Some(k), if k.count >= c.maxAttempts && !f.set_ then now + c.lockTtl else r.lockedUntil)
  }

  function AfterSuccess(r: Record, f: Faults): Record {
    if f.del then r else CLEAN
  }

  function RecordOf(rs: map<string, Record>, login: string): Record {
    if login in rs then rs[login] else CLEAN
  }

  class Lockout {
    const config: Config
    var records: map<string, Record>

    constructor (config: Config)
      ensures this.config == config && records == map[]
    {
      this.config, records := config, map[];
    }

    method IsLocked(now: nat, login: string, f: Faults) returns (locked: bool, ttl: nat, err: bool)
      ensures err <==> !Disabled(config) && f.ttl
      ensures locked <==> !Disabled(config) && !f.ttl && LockedAt(RecordOf(records, login), now)
      ensures locked ==> ttl > 0 && now + ttl == RecordOf(records, login).lockedUntil
    {
      if config.maxAttempts <= 0 || config.lockTtl <= 0 {
        return false, 0, false;
      }
      if f.ttl {
        return false, 0, true;
      }
      var r := RecordOf(records, login);
      if r.lockedUntil > now {
        return true, r.lockedUntil - now, false;
      }
      return false, 0, false;
    }

    method OnFailure(now: nat, login: string, f: Faults) returns (locked: bool)
      modifies this
      ensures records == old(records)[login := AfterFailure(config, RecordOf(old(records), login), now, f)]
        || records == old(records)
      ensures RecordOf(records, login) == AfterFailure(config, RecordOf(old(records), login), now, f)
      ensures locked ==> LockedAt(RecordOf(records, login), now)
    {
      if config.maxAttempts <= 0 || config.lockTtl <= 0 || f.incr {
        return false;
      }
      var r := RecordOf(records, login);
      var k := if Counting(r, now) then r.fails.value.(count := r.fails.value.count + 1) else Counter(1, None);
      if k.count == 1 && !Counting(r, now) && !f.expire {
        k := k.(expiry := Some(now + config.lockTtl));
      }
      records := records[login := r.(fails := Some(k))];
      if k.count < config.maxAttempts || f.set_ {
        return false;
      }
      records := records[login := Record(Some(k), now + config.lockTtl)];
      return true;
    }

    method OnSuccess(login: string, f: Faults)
      modifies this
      ensures records == if f.del then old(records) else old(records) - {login}
      ensures RecordOf(records, login) == AfterSuccess(RecordOf(old(records), login), f)
    {
      if !f.del {
        records := records - {login};
      }
    }

    /** The login handler: the password is looked at only when the lock does not say no. */
    method Attempt(now: nat, login: string, answer: Answer, f: Faults) returns (o: Outcome)
      modifies this
      ensures o == Try(config, RecordOf(old(records), login), now, answer, f).1
      ensures RecordOf(records, login) == Try(config, RecordOf(old(records), login), now, answer, f).0
      ensures forall other :: other != login ==> RecordOf(records, other) == RecordOf(old(records), other)
    {
      var locked, ttl, err := IsLocked(now, login, f);
      if !err && locked {
        return Refused;
      }
      match answer {
        case Rejected =>
          var _ := OnFailure(now, login, f);
          return Failed;
        case Broken =>
          return Errored;
        case Accepted =>
          OnSuccess(login, f);
          return Succeeded;
      }
    }
  }

  // ---------------------------------------------------------------- serialised attempts of one login

  function Try(c: Config, r: Record, now: nat, answer: Answer, f: Faults): (Record, Outcome) {
    if !Disabled(c) && !f.ttl && LockedAt(r, now) then (r, Refused)
    else match answer
      case Rejected => (AfterFailure(c, r, now, f), Failed)
      case Broken => (r, Errored)
      case Accepted => (AfterSuccess(r, f), Succeeded)
  }

  datatype Op = Op(now: nat, answer: Answer)

  function After(c: Config, r: Record, ops: seq<Op>): Record {
    if ops == [] then r
    else Try(c, After(c, r, ops[..|ops| - 1]), ops[|ops| - 1].now, ops[|ops| - 1].answer, NO_FAULTS).0
  }

  function OutcomeAt(c: Config, r: Record, ops: seq<Op>, i: nat): Outcome
    requires i < |ops|
  {
    Try(c, After(c, r, ops[..i]), ops[i].now, ops[i].answer, NO_FAULTS).1
  }

  /** The failed password checks of a run. */
  function Failures(c: Config, r: Record, ops: seq<Op>): nat {
    if ops == [] then 0
    else Failures(c, r, ops[..|ops| - 1]) + if OutcomeAt(c, r, ops, |ops| - 1) == Failed then 1 else 0
  }

  ghost predicate SuccessFree(c: Config, r: Record, ops: seq<Op>) {
    forall i :: 0 <= i < |ops| ==> OutcomeAt(c, r, ops, i) != Succeeded
  }

  predicate InOrder(ops: seq<Op>) {
    forall i, j :: 0 <= i < j < |ops| ==> ops[i].now <= ops[j].now
  }

  /** A counter lives at most one lock period and, when full, not longer than the lock it caused. */
  ghost predicate Ok(c: Config, r: Record, now: nat) {
    r.fails.Some? ==>
      var k := r.fails.value;
      && 1 <= k.count && k.expiry.Some? && k.expiry.value <= now + c.lockTtl
      && (k.count >= c.maxAttempts ==> k.expiry.value <= r.lockedUntil)
  }

  lemma {:induction false} AfterKeepsOk(c: Config, ops: seq<Op>, now: nat)
    requires !Disabled(c) && InOrder(ops) && (ops != [] ==> ops[|ops| - 1].now <= now)
    ensures Ok(c, After(c, CLEAN, ops), now)
  {
    if ops != [] {
      var n := |ops| - 1;
      AfterKeepsOk(c, ops[..n], ops[n].now);
    }
  }

  /** The failures that an interval can hold before the counter that locks its rest begins. */
  function Head(c: Config): int {
    if c.maxAttempts >= 2 && c.lockTtl >= 2 then c.maxAttempts - 2 else 0
  }

  function Bound(c: Config): int {
    Head(c) + c.maxAttempts
  }

  /**
    How `failures` since time `a`, each recorded while the login was not locked, relate to the
    counter: none yet; all on a counter begun before `a`, whose first failure does not count and
    which locks the rest of the interval when full; or some on a counter begun at or after `a`,
    which outlives the interval.
   */
  ghost predicate Stage(c: Config, r: Record, a: nat, failures: nat) {
    || failures == 0
    || (&& r.fails.Some? && r.fails.value.expiry.Some?
        && var k := r.fails.value;
        || (&& a < k.expiry.value < a + c.lockTtl && failures + 1 <= k.count && failures + 1 <= c.maxAttempts
            && (k.count >= c.maxAttempts ==> a + c.lockTtl <= r.lockedUntil))
        || (&& k.expiry.value >= a + c.lockTtl
            && failures <= Head(c) + k.count && failures <= Head(c) + c.maxAttempts))
  }

  /** One more recorded failure; it counts if the login was not locked by then. */
  lemma FailureKeepsStage(c: Config, r: Record, now: nat, a: nat, failures: nat)
    requires !Disabled(c) && Ok(c, r, now) && a <= now < a + c.lockTtl && Stage(c, r, a, failures)
    ensures var r' := AfterFailure(c, r, now, NO_FAULTS);
      Ok(c, r', now) && Stage(c, r', a, failures + if LockedAt(r, now) then 0 else 1)
  {
  }

  lemma StageBound(c: Config, r: Record, a: nat, failures: nat)
    requires !Disabled(c) && Stage(c, r, a, failures)
    ensures failures <= Bound(c) <= 2 * c.maxAttempts - 1
  {
  }

  lemma TryKeepsStage(c: Config, r: Record, last: nat, op: Op, a: nat, failures: nat)
    requires !Disabled(c) && Ok(c, r, last) && last <= op.now && a <= op.now < a + c.lockTtl
    requires Stage(c, r, a, failures)
    requires Try(c, r, op.now, op.answer, NO_FAULTS).1 != Succeeded
    ensures var (r', o) := Try(c, r, op.now, op.answer, NO_FAULTS);
      Ok(c, r', op.now) && Stage(c, r', a, failures + if o == Failed then 1 else 0)
  {
    FailureKeepsStage(c, r, op.now, a, failures);
  }

  lemma {:induction false} SegmentStage(c: Config, r: Record, start: nat, ops: seq<Op>, a: nat)
    requires !Disabled(c) && Ok(c, r, start) && InOrder(ops) && start <= a
    requires forall i :: 0 <= i < |ops| ==> a <= ops[i].now < a + c.lockTtl
    requires SuccessFree(c, r, ops)
    ensures Stage(c, After(c, r, ops), a, Failures(c, r, ops))
    ensures Ok(c, After(c, r, ops), if ops == [] then start else ops[|ops| - 1].now)
  {
    if ops != [] {
      var n := |ops| - 1;
      var pre := ops[..n];
      forall i | 0 <= i < n ensures OutcomeAt(c, r, pre, i) == OutcomeAt(c, r, ops, i) {
        assert pre[..i] == ops[..i];
      }
      SegmentStage(c, r, start, pre, a);
      var last := if pre == [] then start else pre[n - 1].now;
      assert OutcomeAt(c, r, ops, n) != Succeeded;
      TryKeepsStage(c, After(c, r, pre), last, ops[n], a, Failures(c, r, pre));
    }
  }

  /**
    Attempts one after the other: after any history `pre`, a success-free half-open interval of one
    lock period holds at most
    max(maxAttempts, 2 * maxAttempts - 2) failed password checks (maxAttempts, if the period is a
    single instant).
   */
  lemma FailuresPerLockPeriod(c: Config, pre: seq<Op>, ops: seq<Op>, a: nat)
    requires !Disabled(c) && InOrder(pre) && InOrder(ops) && (forall i :: 0 <= i < |pre| ==> pre[i].now <= a)
    requires forall i :: 0 <= i < |ops| ==> a <= ops[i].now < a + c.lockTtl
    requires SuccessFree(c, After(c, CLEAN, pre), ops)
    ensures Failures(c, After(c, CLEAN, pre), ops) <= Bound(c) <= 2 * c.maxAttempts - 1
  {
    AfterKeepsOk(c, pre, a);
    SegmentStage(c, After(c, CLEAN, pre), a, ops, a);
    StageBound(c, After(c, After(c, CLEAN, pre), ops), a, Failures(c, After(c, CLEAN, pre), ops));
  }

  // ---------------------------------------------------------------- what it takes to get locked

  /** The failed checks since the last success, and not before time `from`. */
  function FailedSince(c: Config, ops: seq<Op>, from: int): nat {
    if ops == [] then 0
    else
      var n := |ops| - 1;
      match OutcomeAt(c, CLEAN, ops, n)
      case Succeeded => 0
      case Failed => FailedSince(c, ops[..n], from) + if from <= ops[n].now then 1 else 0
      case _ => FailedSince(c, ops[..n], from)
  }

  lemma {:induction false} MoreSinceEarlier(c: Config, ops: seq<Op>, from: int, later: int)
    requires from <= later
    ensures FailedSince(c, ops, later) <= FailedSince(c, ops, from)
  {
    if ops != [] { MoreSinceEarlier(c, ops[..|ops| - 1], from, later); }
  }

  /** The first `j` attempts end with a failure that is at least the maxAttempts-th within one lock period. */
  ghost predicate FillsCounter(c: Config, ops: seq<Op>, j: nat) {
    && 0 < j <= |ops| && OutcomeAt(c, CLEAN, ops, j - 1) == Failed
    && FailedSince(c, ops[..j], ops[j - 1].now - c.lockTtl + 1) >= c.maxAttempts
  }

  ghost predicate NoSuccessFrom(c: Config, ops: seq<Op>, j: nat) {
    forall i :: j <= i < |ops| ==> OutcomeAt(c, CLEAN, ops, i) != Succeeded
  }

  /** A lock of this length comes from such a failure, with no success since. */
  ghost predicate LockedFrom(c: Config, ops: seq<Op>, until: int, j: nat) {
    FillsCounter(c, ops, j) && NoSuccessFrom(c, ops, j) && until == ops[j - 1].now + c.lockTtl
  }

  lemma PrefixOutcome(c: Config, ops: seq<Op>, op: Op, i: nat)
    requires i < |ops|
    ensures OutcomeAt(c, CLEAN, ops + [op], i) == OutcomeAt(c, CLEAN, ops, i)
  {
    assert (ops + [op])[..i] == ops[..i];
  }

  lemma LockedFromStays(c: Config, ops: seq<Op>, op: Op, until: int, j: nat)
    requires LockedFrom(c, ops, until, j) && OutcomeAt(c, CLEAN, ops + [op], |ops|) != Succeeded
    ensures LockedFrom(c, ops + [op], until, j)
  {
    assert (ops + [op])[..j] == ops[..j];
    PrefixOutcome(c, ops, op, j - 1);
    forall i | j <= i < |ops| + 1 ensures OutcomeAt(c, CLEAN, ops + [op], i) != Succeeded {
      if i < |ops| { PrefixOutcome(c, ops, op, i); }
    }
  }

  /** The counter counts no more than the failures since its first one. */
  ghost predicate CounterEarned(c: Config, ops: seq<Op>, r: Record) {
    r.fails.Some? ==>
      && r.fails.value.expiry.Some?
      && r.fails.value.count <= FailedSince(c, ops, r.fails.value.expiry.value - c.lockTtl)
  }

  ghost predicate LockEarned(c: Config, ops: seq<Op>, r: Record) {
    r.lockedUntil > 0 ==> exists j :: LockedFrom(c, ops, r.lockedUntil, j)
  }

  lemma OneMoreFailure(c: Config, ops: seq<Op>, op: Op, from: int)
    requires !Disabled(c) && OutcomeAt(c, CLEAN, ops + [op], |ops|) == Failed
    ensures FailedSince(c, ops + [op], from) == FailedSince(c, ops, from) + if from <= op.now then 1 else 0
  {
    assert (ops + [op])[..|ops|] == ops;
  }

  lemma FailureAfter(c: Config, ops: seq<Op>, op: Op)
    requires !Disabled(c) && OutcomeAt(c, CLEAN, ops + [op], |ops|) == Failed
    ensures After(c, CLEAN, ops + [op]) == AfterFailure(c, After(c, CLEAN, ops), op.now, NO_FAULTS)
  {
    assert (ops + [op])[..|ops|] == ops;
  }

  lemma CounterIsEarned(c: Config, ops: seq<Op>, op: Op, r: Record, k: Counter)
    requires !Disabled(c) && CounterEarned(c, ops, r) && Ok(c, r, op.now) && k == Bumped(c, r, op.now, false)
    requires OutcomeAt(c, CLEAN, ops + [op], |ops|) == Failed
    ensures k.expiry.Some? && op.now - c.lockTtl < k.expiry.value - c.lockTtl <= op.now
    ensures k.count <= FailedSince(c, ops + [op], k.expiry.value - c.lockTtl)
  {
    OneMoreFailure(c, ops, op, k.expiry.value - c.lockTtl);
  }

  lemma FullIsEarned(c: Config, ops: seq<Op>, from: int)
    requires ops != [] && OutcomeAt(c, CLEAN, ops, |ops| - 1) == Failed
    requires ops[|ops| - 1].now - c.lockTtl < from && c.maxAttempts <= FailedSince(c, ops, from)
    ensures LockedFrom(c, ops, ops[|ops| - 1].now + c.lockTtl, |ops|)
  {
    assert ops[..|ops|] == ops;
    MoreSinceEarlier(c, ops, ops[|ops| - 1].now - c.lockTtl + 1, from);
  }

  lemma LockStaysEarned(c: Config, ops: seq<Op>, op: Op, r: Record)
    requires LockEarned(c, ops, r) && OutcomeAt(c, CLEAN, ops + [op], |ops|) != Succeeded
    ensures LockEarned(c, ops + [op], r)
  {
    if r.lockedUntil > 0 {
      var j :| LockedFrom(c, ops, r.lockedUntil, j);
      LockedFromStays(c, ops, op, r.lockedUntil, j);
    }
  }

  lemma FailureIsEarned(c: Config, ops: seq<Op>, op: Op, r: Record, r': Record)
    requires !Disabled(c) && CounterEarned(c, ops, r) && LockEarned(c, ops, r) && Ok(c, r, op.now)
    requires OutcomeAt(c, CLEAN, ops + [op], |ops|) == Failed && r' == AfterFailure(c, r, op.now, NO_FAULTS)
    ensures CounterEarned(c, ops + [op], r') && LockEarned(c, ops + [op], r')
  {
    var k := Bumped(c, r, op.now, false);
    CounterIsEarned(c, ops, op, r, k);
    if k.count >= c.maxAttempts {
      FullIsEarned(c, ops + [op], k.expiry.value - c.lockTtl);
    } else {
      LockStaysEarned(c, ops, op, r);
    }
  }

  lemma OtherIsEarned(c: Config, ops: seq<Op>, op: Op, r: Record)
    requires r == After(c, CLEAN, ops) && CounterEarned(c, ops, r) && LockEarned(c, ops, r)
    requires OutcomeAt(c, CLEAN, ops + [op], |ops|) != Failed
    ensures var r' := After(c, CLEAN, ops + [op]);
      CounterEarned(c, ops + [op], r') && LockEarned(c, ops + [op], r')
  {
    assert (ops + [op])[..|ops|] == ops;
    if OutcomeAt(c, CLEAN, ops + [op], |ops|) != Succeeded { LockStaysEarned(c, ops, op, r); }
  }

  lemma {:induction false} EveryLockIsEarned(c: Config, ops: seq<Op>)
    requires !Disabled(c) && InOrder(ops)
    ensures CounterEarned(c, ops, After(c, CLEAN, ops)) && LockEarned(c, ops, After(c, CLEAN, ops))
  {
    if ops != [] {
      var pre, op := ops[..|ops| - 1], ops[|ops| - 1];
      assert ops == pre + [op];
      EveryLockIsEarned(c, pre);
      var r := After(c, CLEAN, pre);
      if OutcomeAt(c, CLEAN, ops, |pre|) == Failed {
        AfterKeepsOk(c, pre, op.now);
        FailureAfter(c, pre, op);
        FailureIsEarned(c, pre, op, r, After(c, CLEAN, ops));
      } else {
        OtherIsEarned(c, pre, op, r);
      }
    }
  }

  /**
    An attempt is refused only within one lock period of a failure that is at least the
    maxAttempts-th since the last success and within one lock period, with no success since.
   */
  lemma RefusedOnlyAfterFailures(c: Config, ops: seq<Op>, n: nat) returns (j: nat)
    requires !Disabled(c) && InOrder(ops) && n < |ops| && OutcomeAt(c, CLEAN, ops, n) == Refused
    ensures FillsCounter(c, ops[..n], j) && NoSuccessFrom(c, ops[..n], j) && ops[n].now < ops[j - 1].now + c.lockTtl
  {
    EveryLockIsEarned(c, ops[..n]);
    j :| LockedFrom(c, ops[..n], After(c, CLEAN, ops[..n]).lockedUntil, j);
  }

  lemma {:induction false} FewSinceSuccess(c: Config, ops: seq<Op>, j: nat, from: int)
    requires j <= |ops| && NoSuccessFrom(c, ops, j)
    ensures FailedSince(c, ops[..j], from) <= FailedSince(c, ops, from)
  {
    if j < |ops| {
      var pre := ops[..|ops| - 1];
      assert pre[..j] == ops[..j];
      assert ops == pre + [ops[|pre|]];
      forall i | j <= i < |pre| ensures OutcomeAt(c, CLEAN, pre, i) != Succeeded {
        PrefixOutcome(c, pre, ops[|pre|], i);
      }
      assert OutcomeAt(c, CLEAN, ops, |pre|) != Succeeded;
      FewSinceSuccess(c, pre, j, from);
    } else {
      assert ops[..j] == ops;
    }
  }

  /** So with fewer than maxAttempts failures since the last success, an attempt is judged: a good password gets in. */
  lemma SuccessClearsFailures(c: Config, ops: seq<Op>, n: nat)
    requires !Disabled(c) && InOrder(ops) && n < |ops| && FailedSince(c, ops[..n], 0) < c.maxAttempts
    ensures OutcomeAt(c, CLEAN, ops, n) == match ops[n].answer
                                           case Rejected => Failed
                                           case Broken => Errored
                                           case Accepted => Succeeded
  {
    if OutcomeAt(c, CLEAN, ops, n) == Refused {
      var j := RefusedOnlyAfterFailures(c, ops, n);
      var pre := ops[..n];
      FewSinceSuccess(c, pre, j, pre[j - 1].now - c.lockTtl + 1);
      TimesAreNatural(c, pre, pre[j - 1].now - c.lockTtl + 1);
    }
  }

  lemma {:induction false} TimesAreNatural(c: Config, ops: seq<Op>, from: int)
    ensures FailedSince(c, ops, from) <= FailedSince(c, ops, 0)
  {
    if ops != [] { TimesAreNatural(c, ops[..|ops| - 1], from); }
  }

  // ---------------------------------------------------------------- the bound is sharp

  /** The same failure `n` times over. */
  function Bad(t: nat, n: nat): seq<Op> {
    seq(n, _ => Op(t, Rejected))
  }

  function Count(r: Record, t: nat): nat {
    if Counting(r, t) then r.fails.value.count else 0
  }

  /** What `n` more failures at one moment leave behind. */
  function Filled(c: Config, r: Record, t: nat, n: nat): Record
    requires !Disabled(c)
  {
    if n == 0 then r
    else Record(Some(Counter(Count(r, t) + n, if Counting(r, t) then r.fails.value.expiry else Some(t + c.lockTtl))),
                if Count(r, t) + n == c.maxAttempts then t + c.lockTtl else r.lockedUntil)
  }

  lemma {:induction false} BadRun(c: Config, r: Record, t: nat, n: nat)
    requires !Disabled(c) && !LockedAt(r, t) && Count(r, t) + n <= c.maxAttempts
    ensures After(c, r, Bad(t, n)) == Filled(c, r, t, n)
  {
    if n > 0 {
      BadRun(c, r, t, n - 1);
      assert Bad(t, n)[..n - 1] == Bad(t, n - 1);
    }
  }

  lemma BadOutcome(c: Config, r: Record, t: nat, n: nat, i: nat)
    requires !Disabled(c) && !LockedAt(r, t) && Count(r, t) + n <= c.maxAttempts && i < n
    ensures OutcomeAt(c, r, Bad(t, n), i) == Failed
  {
    BadRun(c, r, t, i);
    assert Bad(t, n)[..i] == Bad(t, i);
  }

  lemma {:induction false} BadCount(c: Config, r: Record, t: nat, n: nat)
    requires !Disabled(c) && !LockedAt(r, t) && Count(r, t) + n <= c.maxAttempts
    ensures Failures(c, r, Bad(t, n)) == n
    ensures forall i :: 0 <= i < n ==> OutcomeAt(c, r, Bad(t, n), i) == Failed
  {
    forall i | 0 <= i < n ensures OutcomeAt(c, r, Bad(t, n), i) == Failed { BadOutcome(c, r, t, n, i); }
    if n > 0 {
      BadCount(c, r, t, n - 1);
      assert Bad(t, n)[..n - 1] == Bad(t, n - 1);
    }
  }

  lemma {:induction false} Appended(c: Config, r: Record, a: seq<Op>, b: seq<Op>)
    ensures After(c, r, a + b) == After(c, After(c, r, a), b)
    ensures Failures(c, r, a + b) == Failures(c, r, a) + Failures(c, After(c, r, a), b)
  {
    if b == [] {
      assert a + b == a;
    } else {
      var n := |b| - 1;
      assert (a + b)[..|a| + n] == a + b[..n];
      Appended(c, r, a, b[..n]);
    }
  }

  lemma AppendedOutcome(c: Config, r: Record, a: seq<Op>, b: seq<Op>, i: nat)
    requires i < |a| + |b|
    ensures OutcomeAt(c, r, a + b, i)
         == if i < |a| then OutcomeAt(c, r, a, i) else OutcomeAt(c, After(c, r, a), b, i - |a|)
  {
    if i < |a| {
      assert (a + b)[..i] == a[..i];
    } else {
      assert (a + b)[..i] == a + b[..i - |a|];
      Appended(c, r, a, b[..i - |a|]);
    }
  }

  lemma BadTwice(c: Config, r: Record, t: nat, n: nat, t': nat, n': nat)
    requires !Disabled(c) && !LockedAt(r, t) && Count(r, t) + n <= c.maxAttempts
    requires var r' := Filled(c, r, t, n); !LockedAt(r', t') && Count(r', t') + n' <= c.maxAttempts
    ensures SuccessFree(c, r, Bad(t, n) + Bad(t', n'))
    ensures Failures(c, r, Bad(t, n) + Bad(t', n')) == n + n'
  {
    BadRun(c, r, t, n);
    BadCount(c, r, t, n);
    BadCount(c, Filled(c, r, t, n), t', n');
    Appended(c, r, Bad(t, n), Bad(t', n'));
    forall i | 0 <= i < n + n' ensures OutcomeAt(c, r, Bad(t, n) + Bad(t', n'), i) != Succeeded {
      AppendedOutcome(c, r, Bad(t, n), Bad(t', n'), i);
    }
  }

  lemma BadsInOrder(t: nat, n: nat, t': nat, n': nat)
    requires t <= t'
    ensures InOrder(Bad(t, n) + Bad(t', n'))
    ensures forall i :: 0 <= i < n + n' ==> t <= (Bad(t, n) + Bad(t', n'))[i].now <= t'
  {
  }

  lemma HeadIsReached(c: Config)
    requires !Disabled(c) && c.maxAttempts >= 2 && c.lockTtl >= 2
    ensures var r := After(c, CLEAN, Bad(0, 1));
      var ops := Bad(1, c.maxAttempts - 2) + Bad(c.lockTtl, c.maxAttempts);
      SuccessFree(c, r, ops) && Failures(c, r, ops) == 2 * c.maxAttempts - 2
  {
    BadRun(c, CLEAN, 0, 1);
    BadTwice(c, Filled(c, CLEAN, 0, 1), 1, c.maxAttempts - 2, c.lockTtl, c.maxAttempts);
  }

  /**
    Every configuration reaches its bound: one failure just before the interval, as many on its
    counter as do not lock, and a full counter once that one has expired.
   */
  lemma BoundIsReached(c: Config) returns (pre: seq<Op>, ops: seq<Op>, a: nat)
    requires !Disabled(c)
    ensures InOrder(pre) && InOrder(ops) && forall i :: 0 <= i < |pre| ==> pre[i].now <= a
    ensures forall i :: 0 <= i < |ops| ==> a <= ops[i].now < a + c.lockTtl
    ensures SuccessFree(c, After(c, CLEAN, pre), ops)
    ensures Failures(c, After(c, CLEAN, pre), ops) == Bound(c)
  {
    var m, t := c.maxAttempts, c.lockTtl;
    if m >= 2 && t >= 2 {
      pre, ops, a := Bad(0, 1), Bad(1, m - 2) + Bad(t, m), 1;
      HeadIsReached(c);
      BadsInOrder(1, m - 2, t, m);
    } else {
      pre, ops, a := [], Bad(0, m), 0;
      BadCount(c, CLEAN, 0, m);
    }
  }

  /** From the failure that fills the counter, no password is looked at for one lock period. */
  lemma {:induction false} LockedMeansNoChecks(c: Config, r: Record, t: nat, ops: seq<Op>, i: nat)
    requires !Disabled(c) && !LockedAt(r, t)
    requires if Counting(r, t) then r.fails.value.count + 1 == c.maxAttempts else c.maxAttempts == 1
    requires i < |ops| && forall j :: 0 <= j < |ops| ==> t <= ops[j].now < t + c.lockTtl
    ensures OutcomeAt(c, AfterFailure(c, r, t, NO_FAULTS), ops, i) == Refused
    ensures After(c, AfterFailure(c, r, t, NO_FAULTS), ops[..i]) == AfterFailure(c, r, t, NO_FAULTS)
  {
    if i > 0 {
      LockedMeansNoChecks(c, r, t, ops, i - 1);
      assert ops[..i][..i - 1] == ops[..i - 1];
    }
  }
}
